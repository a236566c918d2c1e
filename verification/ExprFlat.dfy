/** Why splitting flat tokens at the last top-level operator respects the tree: printed
    subtrees are bracket-balanced, show only operators at least as strong as their own level
    at top level, and never begin or end with an operator character. */
module ExprFlat {
  import opened Text
  import opened Lists
  import opened Tokens
  import opened ConstEval
  import opened ExprTree

  // ------------------------------------------------------------------ nesting

  lemma {:induction false} NestingConcat(stack: seq<Text>, a: seq<Token>, b: seq<Token>)
    ensures Nesting(stack, a + b) == Nesting(Nesting(stack, a), b)
  {
    hide NestStep;
    if b == [] {
      assert a + b == a;
    } else {
      NestingConcat(stack, a, b[..|b| - 1]);
      assert (a + b)[..|a + b| - 1] == a + b[..|b| - 1];
    }
  }

  lemma NestingOne(stack: seq<Text>, t: Token)
    ensures Nesting(stack, [t]) == NestStep(stack, t)
  {
    assert [t][..0] == [];
    assert Nesting(stack, [t][..0]) == stack;
  }

  /** From any stack, a balanced run returns to it and never pops below it. */
  ghost predicate Balanced(ts: seq<Token>) {
    && (forall stack :: Nesting(stack, ts) == stack)
    && (forall stack, k :: 0 <= k <= |ts| ==> stack <= Nesting(stack, ts[..k]))
  }

  lemma BalancedConcat(a: seq<Token>, b: seq<Token>)
    requires Balanced(a) && Balanced(b)
    ensures Balanced(a + b)
  {
    hide Nesting;
    forall stack ensures Nesting(stack, a + b) == stack { NestingConcat(stack, a, b); }
    forall stack, k | 0 <= k <= |a + b| ensures stack <= Nesting(stack, (a + b)[..k]) {
      if k <= |a| {
        assert (a + b)[..k] == a[..k];
      } else {
        assert (a + b)[..k] == a + b[..k - |a|];
        NestingConcat(stack, a, b[..k - |a|]);
      }
    }
  }

  /** No bracket. */
  predicate Plain(t: Token) {
    t.kind.Punctuation? ==> !Opening(t.value) && !Closing(t.value)
  }

  lemma {:induction false} PlainKeepsStack(stack: seq<Text>, ts: seq<Token>)
    requires forall i :: 0 <= i < |ts| ==> Plain(ts[i])
    ensures Nesting(stack, ts) == stack
  {
    if ts != [] { PlainKeepsStack(stack, ts[..|ts| - 1]); }
  }

  lemma PlainIsBalanced(ts: seq<Token>)
    requires forall i :: 0 <= i < |ts| ==> Plain(ts[i])
    ensures Balanced(ts)
  {
    hide Nesting;
    forall stack ensures Nesting(stack, ts) == stack { PlainKeepsStack(stack, ts); }
    forall stack, k | 0 <= k <= |ts| ensures stack <= Nesting(stack, ts[..k]) { PlainKeepsStack(stack, ts[..k]); }
  }

  lemma GroupIsBalanced(open: Token, ts: seq<Token>, close: Token)
    requires IsPunct(open, OPEN) && IsPunct(close, CLOSE) && Balanced(ts)
    ensures Balanced([open] + ts + [close])
    ensures forall k :: 0 < k <= 1 + |ts| ==> Nesting([], ([open] + ts + [close])[..k]) != []
  {
    hide Nesting;
    var all := [open] + ts + [close];
    forall stack, k | 0 < k <= 1 + |ts| ensures stack <= Nesting(stack, all[..k]) && Nesting(stack, all[..k]) != [] {
      assert all[..k] == [open] + ts[..k - 1];
      NestingConcat(stack, [open], ts[..k - 1]);
      NestingOne(stack, open);
      PrefixOfLonger(stack, open.value, Nesting(stack, all[..k]));
    }
    forall stack ensures Nesting(stack, all) == stack {
      NestingConcat(stack, [open] + ts, [close]);
      NestingConcat(stack, [open], ts);
      NestingOne(stack, open);
      NestingOne(stack + [open.value], close);
    }
    forall stack, k | 0 <= k <= |all| ensures stack <= Nesting(stack, all[..k]) {
      if k == |all| { assert all[..k] == all; }
      else if k == 0 { assert all[..0] == []; PlainKeepsStack(stack, []); }
    }
  }

  predicate Spells(op: Op, ops: seq<Token>) {
    |ops| == |OpText(op)| && PunctuatorAt(ops, 0, OpText(op))
  }

  lemma OpsArePlain(op: Op, ops: seq<Token>)
    requires Spells(op, ops)
    ensures forall i :: 0 <= i < |ops| ==> Plain(ops[i]) && IsPunct(ops[i], OpText(op)[0])
    ensures Balanced(ops)
  {
    PlainIsBalanced(ops);
  }

  lemma {:induction false} OuterIsBalanced(py: Python, e: Expr)
    requires WellFormed(py, e)
    ensures Balanced(Outer(e))
    decreases e
  {
    hide Balanced;
    match e
    case StringLiteral(_) | Number(_) | Word(_, _) | Variable(_) | TemplateLiteral(_, _, _) => PlainIsBalanced(Outer(e));
    case Paren(open, inner, close) =>
      OuterIsBalanced(py, inner);
      GroupIsBalanced(open, Outer(inner), close);
    case Binary(op, l, ops, r) =>
      OuterIsBalanced(py, l);
      OuterIsBalanced(py, r);
      OpsArePlain(op, ops);
      BalancedConcat(Outer(l), ops);
      BalancedConcat(Outer(l) + ops, Outer(r));
    case Conditional(c, question, a, colon, b) =>
      OuterIsBalanced(py, c);
      OuterIsBalanced(py, a);
      OuterIsBalanced(py, b);
      PlainIsBalanced([question]);
      PlainIsBalanced([colon]);
      BalancedConcat(Outer(c), [question]);
      BalancedConcat(Outer(c) + [question], Outer(a));
      BalancedConcat(Outer(c) + [question] + Outer(a), [colon]);
      BalancedConcat(Outer(c) + [question] + Outer(a) + [colon], Outer(b));
  }

  /** `ts` sits inside `whole` at `at`, where no bracket is open. */
  ghost predicate Inside(whole: seq<Token>, at: nat, ts: seq<Token>) {
    at + |ts| <= |whole| && whole[at..at + |ts|] == ts && Nesting([], whole[..at]) == []
  }

  lemma TopLevelInside(whole: seq<Token>, at: nat, ts: seq<Token>, i: nat)
    requires Inside(whole, at, ts) && i < |ts|
    ensures whole[at + i] == ts[i]
    ensures TopLevel(whole, at + i) <==> TopLevel(ts, i)
  {
    hide Nesting;
    assert whole[at..at + |ts|][i] == whole[at + i];
    assert whole[..at + i] == whole[..at] + ts[..i];
    NestingConcat([], whole[..at], ts[..i]);
  }

  /** After a balanced run the next position is again outside all brackets. */
  lemma InsideNext(whole: seq<Token>, at: nat, ts: seq<Token>, next: seq<Token>)
    requires Inside(whole, at, ts) && Balanced(ts)
    requires at + |ts| + |next| <= |whole| && whole[at + |ts|..at + |ts| + |next|] == next
    ensures Inside(whole, at + |ts|, next)
  {
    hide Nesting;
    assert whole[..at + |ts|] == whole[..at] + ts;
    NestingConcat([], whole[..at], ts);
  }

  // ------------------------------------------------------------------ ranks

  /** Binding strength of an operator character. */
  function Rank(v: Text): nat {
    if v == [COMMA] then 0
    else if v == [COLON] then 1
    else if v == [QUESTION] then 2
    else if v == [BAR] then 3
    else if v == [AMPERSAND] then 4
    else if v == [PLUS] then 5
    else 6
  }

  /** Top-level punctuation is at least as strong as `level`. */
  ghost predicate RanksFrom(ts: seq<Token>, level: nat) {
    forall i :: 0 <= i < |ts| && TopLevel(ts, i) && ts[i].kind.Punctuation? ==> Rank(ts[i].value) >= level
  }

  lemma RanksConcat(a: seq<Token>, b: seq<Token>, level: nat)
    requires RanksFrom(a, level) && RanksFrom(b, level) && Balanced(a)
    ensures RanksFrom(a + b, level)
  {
    hide TopLevel, Nesting;
    var ab := a + b;
    assert ab[0..|a|] == a && ab[|a|..|ab|] == b && ab[..0] == [] && ab[..|a|] == a;
    PlainKeepsStack([], []);
    forall i | 0 <= i < |ab| && TopLevel(ab, i) && ab[i].kind.Punctuation? ensures Rank(ab[i].value) >= level {
      if i < |a| { TopLevelInside(ab, 0, a, i); } else { TopLevelInside(ab, |a|, b, i - |a|); }
    }
  }

  lemma RanksOne(t: Token, level: nat)
    requires t.kind.Punctuation? ==> Rank(t.value) >= level
    ensures RanksFrom([t], level)
  {
  }

  lemma RanksLower(ts: seq<Token>, high: nat, low: nat)
    requires RanksFrom(ts, high) && low <= high
    ensures RanksFrom(ts, low)
  {
  }

  lemma {:induction false} OuterRanks(py: Python, e: Expr)
    requires WellFormed(py, e)
    ensures RanksFrom(Outer(e), Level(e))
    decreases e
  {
    hide RanksFrom, Balanced;
    match e
    case StringLiteral(t) => RanksOne(t, 6);
    case Number(digits) => DigitsRank(py, digits);
    case Word(t, _) => RanksOne(t, 6);
    case Variable(t) => RanksOne(t, 6);
    case TemplateLiteral(t, _, _) => RanksOne(t, 6);
    case Paren(open, inner, close) => OuterIsBalanced(py, inner); GroupRanks(open, Outer(inner), close);
    case Binary(op, l, ops, r) =>
      OuterRanks(py, l);
      OuterRanks(py, r);
      RanksLower(Outer(l), Level(l), OpLevel(op));
      RanksLower(Outer(r), Level(r), OpLevel(op));
      OuterIsBalanced(py, l);
      OpsArePlain(op, ops);
      OpsRank(op, ops);
      RanksConcat(Outer(l), ops, OpLevel(op));
      BalancedConcat(Outer(l), ops);
      RanksConcat(Outer(l) + ops, Outer(r), OpLevel(op));
    case Conditional(c, question, a, colon, b) =>
      OuterRanks(py, c);
      OuterRanks(py, a);
      OuterRanks(py, b);
      ConditionalRanks(py, e);
  }

  lemma ConditionalRanks(py: Python, e: Expr)
    requires e.Conditional? && WellFormed(py, e)
    requires RanksFrom(Outer(e.c), Level(e.c)) && RanksFrom(Outer(e.a), Level(e.a)) && RanksFrom(Outer(e.b), Level(e.b))
    ensures RanksFrom(Outer(e), 1)
  {
    hide RanksFrom, Balanced;
    var Conditional(c, question, a, colon, b) := e;
    RanksLower(Outer(c), Level(c), 1);
    RanksLower(Outer(a), Level(a), 1);
    RanksLower(Outer(b), Level(b), 1);
    RanksOne(question, 1);
    RanksOne(colon, 1);
    OuterIsBalanced(py, c);
    OuterIsBalanced(py, a);
    PlainIsBalanced([question]);
    PlainIsBalanced([colon]);
    RanksConcat(Outer(c), [question], 1);
    BalancedConcat(Outer(c), [question]);
    RanksConcat(Outer(c) + [question], Outer(a), 1);
    BalancedConcat(Outer(c) + [question], Outer(a));
    RanksConcat(Outer(c) + [question] + Outer(a), [colon], 1);
    BalancedConcat(Outer(c) + [question] + Outer(a), [colon]);
    RanksConcat(Outer(c) + [question] + Outer(a) + [colon], Outer(b), 1);
  }

  lemma DigitsRank(py: Python, digits: seq<Token>)
    requires forall i :: 0 <= i < |digits| ==> Digit(py, digits[i])
    ensures RanksFrom(digits, 6)
  {
    forall i | 0 <= i < |digits| ensures Rank(digits[i].value) == 6 {
      assert Digit(py, digits[i]);
    }
  }

  lemma OpsRank(op: Op, ops: seq<Token>)
    requires Spells(op, ops)
    ensures RanksFrom(ops, OpLevel(op))
  {
    OpsArePlain(op, ops);
    assert Rank([OpText(op)[0]]) == OpLevel(op);
  }

  lemma GroupRanks(open: Token, ts: seq<Token>, close: Token)
    requires IsPunct(open, OPEN) && IsPunct(close, CLOSE) && Balanced(ts)
    ensures RanksFrom([open] + ts + [close], 6)
  {
    hide Nesting;
    var all := [open] + ts + [close];
    GroupIsBalanced(open, ts, close);
    forall i | 0 <= i < |all| ensures !TopLevel(all, i) {
      if i > 0 { assert Nesting([], all[..i]) != []; }
    }
  }

  // ------------------------------------------------------------------ edges

  /** A token that can begin or end an operand: not an operator character. */
  predicate Edge(py: Python, t: Token) {
    t.kind.Punctuation? ==> t.value == [OPEN] || t.value == [CLOSE] || Digit(py, t)
  }

  lemma AtomEdges(py: Python, e: Expr)
    requires WellFormed(py, e) && !e.Binary? && !e.Conditional?
    ensures Outer(e) != [] && Edge(py, Outer(e)[0]) && Edge(py, Outer(e)[|Outer(e)| - 1])
  {
  }

  lemma BinaryOuter(py: Python, e: Expr)
    requires e.Binary? && WellFormed(py, e)
    ensures WellFormed(py, e.l) && WellFormed(py, e.r) && Outer(e) == Outer(e.l) + e.ops + Outer(e.r)
  {
  }

  lemma ConditionalOuter(py: Python, e: Expr)
    requires e.Conditional? && WellFormed(py, e)
    ensures WellFormed(py, e.c) && WellFormed(py, e.b)
    ensures Outer(e) == Outer(e.c) + ([e.question] + Outer(e.a) + [e.colon]) + Outer(e.b)
  {
    hide WellFormed;
    assert Outer(e) == Outer(e.c) + [e.question] + Outer(e.a) + [e.colon] + Outer(e.b);
    assert WellFormed(py, e.c) && WellFormed(py, e.b) by { ConditionalEnds(py, e); }
  }

  lemma ConditionalEnds(py: Python, e: Expr)
    requires e.Conditional? && WellFormed(py, e)
    ensures WellFormed(py, e.c) && WellFormed(py, e.b)
  {
    hide Outer;
  }

  lemma {:induction false} OuterEdges(py: Python, e: Expr)
    requires WellFormed(py, e)
    ensures Outer(e) != [] && Edge(py, Outer(e)[0]) && Edge(py, Outer(e)[|Outer(e)| - 1])
    decreases e
  {
    hide Edge, WellFormed, Outer;
    if e.Binary? {
      BinaryOuter(py, e);
      OuterEdges(py, e.l);
      OuterEdges(py, e.r);
      EdgesJoin(Outer(e.l), e.ops, Outer(e.r));
    } else if e.Conditional? {
      ConditionalOuter(py, e);
      OuterEdges(py, e.c);
      OuterEdges(py, e.b);
      EdgesJoin(Outer(e.c), [e.question] + Outer(e.a) + [e.colon], Outer(e.b));
    } else {
      AtomEdges(py, e);
    }
  }

  lemma EdgesJoin(x: seq<Token>, y: seq<Token>, z: seq<Token>)
    requires x != [] && z != []
    ensures var all := x + y + z; all != [] && all[0] == x[0] && all[|all| - 1] == z[|z| - 1]
  {
  }

  // ------------------------------------------------------------------ operators

  lemma OperatorHead(ts: seq<Token>, j: nat, text: Text)
    requires OperatorAt(ts, j, text) && text != []
    ensures j < |ts| && TopLevel(ts, j) && IsPunct(ts[j], text[0])
  {
  }

  /** An operator character found at top level bounds the level of the tree. */
  lemma NoWeaker(py: Python, e: Expr, op: Op)
    requires WellFormed(py, e) && OpLevel(op) < Level(e)
    ensures LastOperator(Outer(e), OpText(op)).None?
  {
    hide TopLevel, Outer, Level;
    OuterRanks(py, e);
    var ts := Outer(e);
    assert Rank([OpText(op)[0]]) == OpLevel(op);
    forall j: nat | OperatorAt(ts, j, OpText(op)) ensures false {
      OperatorHead(ts, j, OpText(op));
    }
  }

  /** The last top-level occurrence of the tree's own operator is its root. */
  lemma RootIsLast(py: Python, e: Expr)
    requires e.Binary? && WellFormed(py, e)
    ensures LastOperator(Outer(e), OpText(e.op)) == Some(|Outer(e.l)|)
  {
    hide LastOperator, Balanced, RanksFrom;
    OuterIsBalanced(py, e.l);
    OuterRanks(py, e.r);
    RanksLower(Outer(e.r), Level(e.r), OpLevel(e.op) + 1);
    LastInSum(Outer(e.l), e.op, e.ops, Outer(e.r));
  }

  lemma LastInSum(left: seq<Token>, op: Op, ops: seq<Token>, right: seq<Token>)
    requires Balanced(left) && Spells(op, ops) && RanksFrom(right, OpLevel(op) + 1)
    ensures LastOperator(left + ops + right, OpText(op)) == Some(|left|)
  {
    hide TopLevel, Balanced;
    var ts := left + ops + right;
    OpsArePlain(op, ops);
    ThreeInside(left, ops, right);
    forall k | |left| <= k < |left| + |ops| ensures TopLevel(ts, k) && ts[k] == ops[k - |left|] {
      TopLevelInside(ts, |left|, ops, k - |left|);
      OpsAtTop(ops, k - |left|);
    }
    assert OperatorAt(ts, |left|, OpText(op));
    forall j: nat | j > |left| ensures !OperatorAt(ts, j, OpText(op)) {
      if OperatorAt(ts, j, OpText(op)) { NotInRight(left, op, ops, right, j + |OpText(op)| - 1); }
    }
  }

  lemma NotInRight(left: seq<Token>, op: Op, ops: seq<Token>, right: seq<Token>, k: nat)
    requires Balanced(left) && Spells(op, ops) && RanksFrom(right, OpLevel(op) + 1)
    requires |left| + |ops| <= k < |left + ops + right|
    ensures TopLevel(left + ops + right, k) ==> !IsPunct((left + ops + right)[k], OpText(op)[0])
  {
    hide TopLevel, Balanced;
    OpsArePlain(op, ops);
    ThreeInside(left, ops, right);
    TopLevelInside(left + ops + right, |left| + |ops|, right, k - |left| - |ops|);
    assert Rank([OpText(op)[0]]) == OpLevel(op);
  }

  lemma OpsAtTop(ops: seq<Token>, k: nat)
    requires k < |ops| && forall i :: 0 <= i < |ops| ==> Plain(ops[i])
    ensures TopLevel(ops, k)
  {
    PlainKeepsStack([], ops[..k]);
  }

  lemma ThreeInside(a: seq<Token>, b: seq<Token>, c: seq<Token>)
    requires Balanced(a) && Balanced(b)
    ensures Inside(a + b + c, 0, a) && Inside(a + b + c, |a|, b) && Inside(a + b + c, |a| + |b|, c)
  {
    hide Nesting, Balanced;
    var ts := a + b + c;
    assert ts[..0] == [];
    PlainKeepsStack([], []);
    assert ts[0..|ts|] == ts;
    InsideParts(ts, 0, a, b, c);
  }

  lemma InsideParts(whole: seq<Token>, at: nat, a: seq<Token>, b: seq<Token>, c: seq<Token>)
    requires Inside(whole, at, a + b + c) && Balanced(a) && Balanced(b)
    ensures Inside(whole, at, a) && Inside(whole, at + |a|, b) && Inside(whole, at + |a| + |b|, c)
  {
    hide Nesting, Balanced;
    var ts := a + b + c;
    var m, n := at + |a|, at + |a| + |b|;
    SliceOfSlice(whole, at, at + |ts|, 0, |a|);
    SliceOfSlice(whole, at, at + |ts|, |a|, |a| + |b|);
    SliceOfSlice(whole, at, at + |ts|, |a| + |b|, |ts|);
    assert ts[0..|a|] == a && ts[|a|..|a| + |b|] == b && ts[|a| + |b|..|ts|] == c;
    InsideNext(whole, at, a, b);
    InsideNext(whole, m, b, c);
  }
}
