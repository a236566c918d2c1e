/** The flat-token evaluator computes tree semantics. */
module ExprEval {
  import opened Text
  import opened Tokens
  import opened ConstEval
  import opened ExprTree
  import opened ExprFlat

  // ------------------------------------------------------------------ the conditional scan

  predicate QuestionOrColon(t: Token) { IsPunct(t, QUESTION) || IsPunct(t, COLON) }

  lemma {:induction false} QuietScan(ts: seq<Token>, a: nat, b: nat, question: Option<nat>, nested: nat)
    requires a <= b <= |ts| && (question.Some? ==> question.value < a)
    requires forall i :: a <= i < b && TopLevel(ts, i) ==> !QuestionOrColon(ts[i])
    ensures ConditionalFrom(ts, a, question, nested) == ConditionalFrom(ts, b, question, nested)
    decreases b - a
  {
    hide TopLevel;
    if a < b { QuietScan(ts, a + 1, b, question, nested); }
  }

  lemma TightIsQuiet(whole: seq<Token>, at: nat, ts: seq<Token>, question: Option<nat>, nested: nat)
    requires Inside(whole, at, ts) && RanksFrom(ts, 3) && (question.Some? ==> question.value < at)
    ensures ConditionalFrom(whole, at, question, nested) == ConditionalFrom(whole, at + |ts|, question, nested)
  {
    hide TopLevel, Inside;
    InsideFits(whole, at, ts);
    forall i | at <= i < at + |ts| && TopLevel(whole, i) ensures !QuestionOrColon(whole[i]) {
      TopLevelInside(whole, at, ts, i - at);
    }
    QuietScan(whole, at, at + |ts|, question, nested);
  }

  lemma InsideFits(whole: seq<Token>, at: nat, ts: seq<Token>)
    requires Inside(whole, at, ts)
    ensures at + |ts| <= |whole|
    ensures forall i :: 0 <= i < |ts| ==> whole[at + i] == ts[i]
  {
    forall i | 0 <= i < |ts| ensures whole[at + i] == ts[i] { assert whole[at..at + |ts|][i] == ts[i]; }
  }

  /** Scanning for `? :` passes over an operand of a conditional without changing its state. */
  lemma {:induction false} OperandIsPassed(py: Python, e: Expr, whole: seq<Token>, at: nat, question: Option<nat>, nested: nat)
    requires WellFormed(py, e) && Inside(whole, at, Outer(e)) && (question.Some? ==> question.value < at) && Level(e) >= 2
    ensures at + |Outer(e)| <= |whole|
    ensures ConditionalFrom(whole, at, question, nested) == ConditionalFrom(whole, at + |Outer(e)|, question, nested)
    decreases e
  {
    hide TopLevel, Inside, ConditionalFrom, RanksFrom, Balanced;
    InsideFits(whole, at, Outer(e));
    if Level(e) >= 3 {
      OuterRanks(py, e);
      RanksLower(Outer(e), Level(e), 3);
      TightIsQuiet(whole, at, Outer(e), question, nested);
    } else {
      OuterIsBalanced(py, e.l);
      OpsArePlain(e.op, e.ops);
      InsideParts(whole, at, Outer(e.l), e.ops, Outer(e.r));
      OperandIsPassed(py, e.l, whole, at, question, nested);
      NullishIsPassed(whole, at + |Outer(e.l)|, e.ops, question, nested);
      OperandIsPassed(py, e.r, whole, at + |Outer(e.l)| + 2, question, nested);
    }
  }

  /** How many question marks of a branch, outside brackets, touch a decimal point. */
  function Lost(e: Expr): nat
    decreases e
  {
    match e
    case Conditional(_, question, a, _, b) => (if Touches(question, a) then 1 else 0) + Lost(a) + Lost(b)
    case _ => 0
  }

  lemma {:induction false} UntouchedLosesNone(e: Expr)
    requires Untouched(e)
    ensures Lost(e) == 0
    decreases e
  {
    if e.Conditional? {
      UntouchedLosesNone(e.a);
      UntouchedLosesNone(e.b);
    }
  }

  /** The scan ends inside `at..end`. */
  ghost predicate EndsWithin(r: Option<(nat, nat)>, at: nat, end: nat) { r.Some? && at <= r.value.1 < end }

  /** Behind a question mark the scan passes a branch, one colon too early for every question
      mark that is lost; when it cannot, it ends inside the branch. */
  lemma {:induction false} BranchIsScanned(py: Python, e: Expr, whole: seq<Token>, at: nat, question: Option<nat>, nested: nat)
    requires WellFormed(py, e) && Inside(whole, at, Outer(e)) && question.Some? && question.value < at && Level(e) >= 1
    ensures var end := at + |Outer(e)|;
            && end <= |whole|
            && (nested >= Lost(e) ==>
                  ConditionalFrom(whole, at, question, nested) == ConditionalFrom(whole, end, question, nested - Lost(e)))
            && (nested < Lost(e) ==> EndsWithin(ConditionalFrom(whole, at, question, nested), at, end))
    decreases e
  {
    hide TopLevel, Inside, ConditionalFrom, RanksFrom, Balanced, WellFormed, Outer, Touches;
    InsideFits(whole, at, Outer(e));
    if !e.Conditional? {
      OperandIsPassed(py, e, whole, at, question, nested);
    } else {
      ConditionalShape(py, e);
      ConditionalInside(py, e, whole, at);
      var q := at + |Outer(e.c)|;
      var k := q + 1 + |Outer(e.a)|;
      OperandIsPassed(py, e.c, whole, at, question, nested);
      QuestionIsCounted(py, e, whole, at, question, nested);
      var inner := if Touches(e.question, e.a) then nested else nested + 1;
      BranchIsScanned(py, e.a, whole, q + 1, question, inner);
      if inner >= Lost(e.a) {
        ColonIsCounted(whole, k, e.colon, question, inner - Lost(e.a));
        if inner > Lost(e.a) { BranchIsScanned(py, e.b, whole, k + 1, question, inner - Lost(e.a) - 1); }
      }
    }
  }

  lemma ConditionalShape(py: Python, e: Expr)
    requires e.Conditional? && WellFormed(py, e)
    ensures WellFormed(py, e.c) && WellFormed(py, e.a) && WellFormed(py, e.b)
    ensures Level(e.c) >= 2 && Level(e.a) >= 1 && Level(e.b) >= 1
    ensures IsPunct(e.question, QUESTION) && IsPunct(e.colon, COLON)
    ensures Outer(e.a) != []
  {
    hide Outer;
    OuterIsNotEmpty(py, e.a);
  }

  lemma NullishIsPassed(whole: seq<Token>, at: nat, ops: seq<Token>, question: Option<nat>, nested: nat)
    requires Inside(whole, at, ops) && Spells(NullishOp, ops) && (question.Some? ==> question.value < at)
    ensures at + 2 <= |whole|
    ensures ConditionalFrom(whole, at, question, nested) == ConditionalFrom(whole, at + 2, question, nested)
  {
    hide TopLevel, Inside;
    InsideFits(whole, at, ops);
    OpsArePlain(NullishOp, ops);
    OpsAtTop(ops, 0);
    OpsAtTop(ops, 1);
    TopLevelInside(whole, at, ops, 0);
    TopLevelInside(whole, at, ops, 1);
    assert whole[at + 0] == ops[0] && whole[at + 1] == ops[1];
    assert PunctuatorAt(whole, at, NULLISH);
    assert PartOfLonger(whole, at) && PartOfLonger(whole, at + 1);
  }

  lemma ConditionalInside(py: Python, e: Expr, whole: seq<Token>, at: nat)
    requires e.Conditional? && WellFormed(py, e) && Inside(whole, at, Outer(e))
    ensures var q := at + |Outer(e.c)|; var k := q + 1 + |Outer(e.a)|;
            && Inside(whole, at, Outer(e.c)) && Inside(whole, q, [e.question]) && Inside(whole, q + 1, Outer(e.a))
            && Inside(whole, k, [e.colon]) && Inside(whole, k + 1, Outer(e.b))
            && k + 1 + |Outer(e.b)| == at + |Outer(e)|
  {
    hide Inside, Balanced;
    var tail := Outer(e.a) + [e.colon] + Outer(e.b);
    assert Outer(e) == Outer(e.c) + [e.question] + tail;
    OuterIsBalanced(py, e.c);
    OuterIsBalanced(py, e.a);
    PlainIsBalanced([e.question]);
    PlainIsBalanced([e.colon]);
    InsideParts(whole, at, Outer(e.c), [e.question], tail);
    InsideParts(whole, at + |Outer(e.c)| + 1, Outer(e.a), [e.colon], Outer(e.b));
  }

  /** The `?` of a conditional stands between operands, so it is no `??`, and it is taken for
      a `?.` exactly when it touches a decimal point. */
  lemma QuestionStandsAlone(py: Python, e: Expr, whole: seq<Token>, at: nat)
    requires e.Conditional? && WellFormed(py, e) && Inside(whole, at, Outer(e))
    ensures var q := at + |Outer(e.c)|;
            q < |whole| && TopLevel(whole, q) && IsPunct(whole[q], QUESTION) && (PartOfLonger(whole, q) <==> Touches(e.question, e.a))
  {
    hide TopLevel, Inside, PunctuatorAt, PartOfLonger, WellFormed, Outer, Edge;
    ConditionalInside(py, e, whole, at);
    ConditionalShape(py, e);
    var q := at + |Outer(e.c)|;
    InsideFits(whole, at, Outer(e.c));
    InsideFits(whole, q, [e.question]);
    InsideFits(whole, q + 1, Outer(e.a));
    OpsAtTop([e.question], 0);
    TopLevelInside(whole, q, [e.question], 0);
    assert whole[q + 0] == [e.question][0];
    OuterEdges(py, e.c);
    OuterEdges(py, e.a);
    assert whole[at + (|Outer(e.c)| - 1)] == Outer(e.c)[|Outer(e.c)| - 1];
    assert whole[q + 1 + 0] == Outer(e.a)[0];
    EdgeIsNoQuestion(py, Outer(e.c)[|Outer(e.c)| - 1]);
    EdgeIsNoQuestion(py, Outer(e.a)[0]);
    StandsAlone(whole, q);
  }

  lemma EdgeIsNoQuestion(py: Python, t: Token)
    requires Edge(py, t)
    ensures !IsPunct(t, QUESTION)
  {
  }

  lemma StandsAlone(whole: seq<Token>, q: nat)
    requires 0 < q < |whole| - 1
    requires !IsPunct(whole[q - 1], QUESTION) && IsPunct(whole[q], QUESTION) && !IsPunct(whole[q + 1], QUESTION)
    ensures PartOfLonger(whole, q) <==> IsPunct(whole[q + 1], DOT) && whole[q].end == whole[q + 1].start
  {
    if IsPunct(whole[q + 1], DOT) && whole[q].end == whole[q + 1].start { assert PunctuatorAt(whole, q, OPTIONAL); }
  }

  lemma QuestionIsCounted(py: Python, e: Expr, whole: seq<Token>, at: nat, question: Option<nat>, nested: nat)
    requires e.Conditional? && WellFormed(py, e) && Inside(whole, at, Outer(e)) && (question.Some? ==> question.value < at)
    ensures var q := at + |Outer(e.c)|;
            q < |whole| &&
            ConditionalFrom(whole, q, question, nested) ==
              if Touches(e.question, e.a) then ConditionalFrom(whole, q + 1, question, nested)
              else if question.Some? then ConditionalFrom(whole, q + 1, question, nested + 1)
              else ConditionalFrom(whole, q + 1, Some(q), nested)
  {
    hide TopLevel, Inside, PartOfLonger, Touches;
    QuestionStandsAlone(py, e, whole, at);
  }

  lemma ColonIsCounted(whole: seq<Token>, k: nat, colon: Token, question: Option<nat>, nested: nat)
    requires Inside(whole, k, [colon]) && IsPunct(colon, COLON) && question.Some? && question.value < k
    ensures k < |whole|
    ensures ConditionalFrom(whole, k, question, nested) ==
              if nested > 0 then ConditionalFrom(whole, k + 1, question, nested - 1) else Some((question.value, k))
  {
    hide TopLevel, Inside;
    InsideFits(whole, k, [colon]);
    OpsAtTop([colon], 0);
    TopLevelInside(whole, k, [colon], 0);
    assert whole[k + 0] == [colon][0];
  }

  lemma InsideItself(ts: seq<Token>)
    ensures Inside(ts, 0, ts)
  {
    assert ts[..0] == [];
    PlainKeepsStack([], []);
    assert ts[0..|ts|] == ts;
  }

  /** Outside conditionals the scan finds nothing. */
  lemma NoConditional(py: Python, e: Expr)
    requires WellFormed(py, e) && Level(e) >= 1 && !e.Conditional?
    ensures ConditionalIndices(Outer(e)).None?
  {
    hide Inside, ConditionalFrom, WellFormed, Outer;
    InsideItself(Outer(e));
    OperandIsPassed(py, e, Outer(e), 0, None, 0);
    NothingLeft(Outer(e));
  }

  lemma NothingLeft(ts: seq<Token>)
    ensures ConditionalFrom(ts, |ts|, None, 0) == None
  {
  }

  /** The scan finds the root's own `?` and `:` exactly when neither the root's question mark
      nor any of its first branch, outside brackets, touches a decimal point. */
  lemma RootConditional(py: Python, e: Expr)
    requires e.Conditional? && WellFormed(py, e)
    ensures ConditionalIndices(Outer(e)) == Some((|Outer(e.c)|, |Outer(e.c)| + 1 + |Outer(e.a)|)) <==>
            !Touches(e.question, e.a) && Lost(e.a) == 0
  {
    hide TopLevel, Inside, ConditionalFrom, WellFormed, Outer, Touches, PartOfLonger;
    ConditionalShape(py, e);
    var ts := Outer(e);
    var q := |Outer(e.c)|;
    InsideItself(ts);
    ConditionalInside(py, e, ts, 0);
    OperandIsPassed(py, e.c, ts, 0, None, 0);
    QuestionIsCounted(py, e, ts, 0, None, 0);
    if Touches(e.question, e.a) {
      QuestionStandsAlone(py, e, ts, 0);
      FoundIsNoLonger(ts, 0, None, 0);
    } else {
      BranchIsScanned(py, e.a, ts, q + 1, Some(q), 0);
      if Lost(e.a) == 0 { ColonIsCounted(ts, q + 1 + |Outer(e.a)|, e.colon, Some(q), 0); }
    }
  }

  /** A question mark that the scan answers with is no part of `??` or `?.`. */
  lemma {:induction false} FoundIsNoLonger(ts: seq<Token>, i: nat, question: Option<nat>, nested: nat)
    requires i <= |ts| && (question.Some? ==> question.value < i && !PartOfLonger(ts, question.value))
    ensures var r := ConditionalFrom(ts, i, question, nested); r.Some? ==> !PartOfLonger(ts, r.value.0)
    decreases |ts| - i
  {
    hide TopLevel, PartOfLonger;
    if i < |ts| {
      FoundIsNoLonger(ts, i + 1, question, nested);
      FoundIsNoLonger(ts, i + 1, question, nested + 1);
      if nested > 0 { FoundIsNoLonger(ts, i + 1, question, nested - 1); }
      if !PartOfLonger(ts, i) { FoundIsNoLonger(ts, i + 1, Some(i), nested); }
    }
  }

  // ------------------------------------------------------------------ stripping

  function ParenPairs(ts: seq<Token>, n: nat): Pairs
    requires n <= |ts|
  {
    PairsUpTo(ts, OPEN, CLOSE, n)
  }

  /** From `a` to `b` the bracket stack returns and no earlier pair changes. */
  ghost predicate SamePairs(ts: seq<Token>, a: nat, b: nat)
    requires a <= b <= |ts|
  {
    && ParenPairs(ts, a).stack == ParenPairs(ts, b).stack
    && forall k: nat :: k < a ==>
         (k in ParenPairs(ts, a).pairs <==> k in ParenPairs(ts, b).pairs) &&
         (k in ParenPairs(ts, a).pairs ==> ParenPairs(ts, b).pairs[k] == ParenPairs(ts, a).pairs[k])
  }

  lemma {:induction false} QuietPairs(ts: seq<Token>, a: nat, b: nat)
    requires a <= b <= |ts| && forall i :: a <= i < b ==> Plain(ts[i])
    ensures SamePairs(ts, a, b)
    decreases b - a
  {
    if a < b {
      QuietPairs(ts, a, b - 1);
      assert Plain(ts[b - 1]);
    }
  }

  lemma SamePairsTwice(ts: seq<Token>, a: nat, b: nat, c: nat)
    requires a <= b <= c <= |ts| && SamePairs(ts, a, b) && SamePairs(ts, b, c)
    ensures SamePairs(ts, a, c)
  {
  }

  /** `part` is found in `ts` at `at`. */
  ghost predicate Occurs(ts: seq<Token>, at: nat, part: seq<Token>) {
    at + |part| <= |ts| && forall i :: 0 <= i < |part| ==> ts[at + i] == part[i]
  }

  /** Wherever it occurs, the run leaves the parenthesis matching as it found it. */
  ghost predicate PairNeutral(part: seq<Token>) {
    forall ts, at: nat :: Occurs(ts, at, part) ==> SamePairs(ts, at, at + |part|)
  }

  lemma OccursSplit(ts: seq<Token>, at: nat, a: seq<Token>, b: seq<Token>)
    requires Occurs(ts, at, a + b)
    ensures Occurs(ts, at, a) && Occurs(ts, at + |a|, b)
  {
    var all := a + b;
    forall i | 0 <= i < |a| ensures ts[at + i] == a[i] { assert all[i] == a[i]; }
    forall i | 0 <= i < |b| ensures ts[at + |a| + i] == b[i] {
      assert all[|a| + i] == b[i];
      assert ts[at + (|a| + i)] == all[|a| + i];
    }
  }

  lemma PairNeutralConcat(a: seq<Token>, b: seq<Token>)
    requires PairNeutral(a) && PairNeutral(b)
    ensures PairNeutral(a + b)
  {
    hide SamePairs;
    forall ts, at: nat | Occurs(ts, at, a + b) ensures SamePairs(ts, at, at + |a + b|) {
      OccursSplit(ts, at, a, b);
      SamePairsTwice(ts, at, at + |a|, at + |a| + |b|);
    }
  }

  lemma PlainIsPairNeutral(part: seq<Token>)
    requires forall i :: 0 <= i < |part| ==> Plain(part[i])
    ensures PairNeutral(part)
  {
    hide SamePairs;
    forall ts, at: nat | Occurs(ts, at, part) ensures SamePairs(ts, at, at + |part|) {
      forall i | at <= i < at + |part| ensures Plain(ts[i]) { assert ts[at + (i - at)] == part[i - at]; }
      QuietPairs(ts, at, at + |part|);
    }
  }

  lemma GroupPairs(ts: seq<Token>, at: nat, open: Token, inner: seq<Token>, close: Token)
    requires Occurs(ts, at, [open] + inner + [close]) && IsPunct(open, OPEN) && IsPunct(close, CLOSE)
    requires PairNeutral(inner)
    ensures SamePairs(ts, at, at + |inner| + 2)
    ensures var p := ParenPairs(ts, at + |inner| + 2).pairs; at in p && p[at] == at + |inner| + 1
  {
    var all := [open] + inner + [close];
    assert ts[at + 0] == all[0] == open;
    assert ts[at + (|inner| + 1)] == all[|inner| + 1] == close;
    assert all == [open] + (inner + [close]);
    OccursSplit(ts, at, [open], inner + [close]);
    OccursSplit(ts, at + 1, inner, [close]);
    assert SamePairs(ts, at + 1, at + 1 + |inner|);
  }

  lemma GroupIsPairNeutral(open: Token, inner: seq<Token>, close: Token)
    requires IsPunct(open, OPEN) && IsPunct(close, CLOSE) && PairNeutral(inner)
    ensures PairNeutral([open] + inner + [close])
  {
    hide SamePairs;
    var part := [open] + inner + [close];
    forall ts, at: nat | Occurs(ts, at, part) ensures SamePairs(ts, at, at + |part|) {
      GroupPairs(ts, at, open, inner, close);
    }
  }

  lemma {:induction false} OuterIsPairNeutral(py: Python, e: Expr)
    requires WellFormed(py, e)
    ensures PairNeutral(Outer(e))
    decreases e
  {
    hide PairNeutral;
    match e
    case StringLiteral(_) | Number(_) | Word(_, _) | Variable(_) | TemplateLiteral(_, _, _) => PlainIsPairNeutral(Outer(e));
    case Paren(open, inner, close) =>
      OuterIsPairNeutral(py, inner);
      GroupIsPairNeutral(open, Outer(inner), close);
    case Binary(op, l, ops, r) =>
      OuterIsPairNeutral(py, l);
      OuterIsPairNeutral(py, r);
      OpsArePlain(op, ops);
      PlainIsPairNeutral(ops);
      PairNeutralConcat(Outer(l), ops);
      PairNeutralConcat(Outer(l) + ops, Outer(r));
    case Conditional(c, question, a, colon, b) =>
      OuterIsPairNeutral(py, c);
      OuterIsPairNeutral(py, a);
      OuterIsPairNeutral(py, b);
      PlainIsPairNeutral([question]);
      PlainIsPairNeutral([colon]);
      PairNeutralConcat(Outer(c), [question]);
      PairNeutralConcat(Outer(c) + [question], Outer(a));
      PairNeutralConcat(Outer(c) + [question] + Outer(a), [colon]);
      PairNeutralConcat(Outer(c) + [question] + Outer(a) + [colon], Outer(b));
  }

  /** Once index 0 is matched, its pair stays. */
  lemma {:induction false} FirstPairStays(ts: seq<Token>, k: nat, n: nat)
    requires 1 <= k <= n <= |ts|
    requires 0 !in ParenPairs(ts, k).stack && 0 in ParenPairs(ts, k).pairs
    ensures 0 !in ParenPairs(ts, n).stack && 0 in ParenPairs(ts, n).pairs
    ensures ParenPairs(ts, n).pairs[0] == ParenPairs(ts, k).pairs[0]
    decreases n - k
  {
    if k < n {
      FirstPairStays(ts, k, n - 1);
      var p := ParenPairs(ts, n - 1);
      if p.stack != [] { assert p.stack[|p.stack| - 1] in p.stack; }
    }
  }

  /** The leftmost atom of a tree. */
  function Leftmost(e: Expr): Expr {
    match e
    case Binary(_, l, _, _) => Leftmost(l)
    case Conditional(c, _, _, _, _) => Leftmost(c)
    case _ => e
  }

  lemma {:induction false} LeftmostIsPrefix(py: Python, e: Expr)
    requires WellFormed(py, e)
    ensures var f := Leftmost(e);
            WellFormed(py, f) && !f.Binary? && !f.Conditional? && Outer(f) <= Outer(e) &&
            (e.Binary? || e.Conditional? ==> |Outer(f)| < |Outer(e)|)
    decreases e
  {
    match e
    case Binary(_, l, _, _) => LeftmostIsPrefix(py, l);
    case Conditional(c, _, _, _, _) => LeftmostIsPrefix(py, c);
    case _ =>
  }

  /** A parenthesised group at the very start is closed at its own end. */
  lemma GroupAtStart(py: Python, ts: seq<Token>, f: Expr)
    requires f.Paren? && WellFormed(py, f) && Outer(f) <= ts
    ensures 0 in PairsOf(ts, OPEN, CLOSE) && PairsOf(ts, OPEN, CLOSE)[0] == |Outer(f)| - 1
  {
    hide PairNeutral;
    var inner := Outer(f.e);
    var part := [f.open] + inner + [f.close];
    OuterIsPairNeutral(py, f.e);
    assert part == Outer(f);
    assert Occurs(ts, 0, part);
    GroupPairs(ts, 0, f.open, inner, f.close);
    FirstPairStays(ts, |part|, |ts|);
  }

  lemma GroupedIffParen(py: Python, e: Expr)
    requires WellFormed(py, e)
    ensures Grouped(Outer(e)) <==> e.Paren?
  {
    hide PairsOf, WellFormed;
    var f := Leftmost(e);
    LeftmostIsPrefix(py, e);
    FirstToken(py, f);
    if f.Paren? {
      GroupAtStart(py, Outer(e), f);
      if e.Paren? { ParenEnds(py, e); }
    }
  }

  lemma FirstToken(py: Python, f: Expr)
    requires WellFormed(py, f) && !f.Binary? && !f.Conditional?
    ensures Outer(f) != [] && (IsPunct(Outer(f)[0], OPEN) <==> f.Paren?)
  {
    if f.Number? { assert Digit(py, f.digits[0]); }
  }

  lemma ParenEnds(py: Python, e: Expr)
    requires e.Paren? && WellFormed(py, e)
    ensures |Outer(e)| >= 2 && IsPunct(Outer(e)[0], OPEN) && IsPunct(Outer(e)[|Outer(e)| - 1], CLOSE)
  {
  }

  predicate AssertionWord(t: Token) { IsWord(t, "as") || IsWord(t, "satisfies") }

  lemma {:induction false} NoAssertionWords(py: Python, e: Expr)
    requires WellFormed(py, e)
    ensures forall i :: 0 <= i < |Outer(e)| ==> !AssertionWord(Outer(e)[i])
    decreases e
  {
    match e
    case Word(t, _) => WordsDiffer(t.value);
    case StringLiteral(_) | Number(_) | Variable(_) | TemplateLiteral(_, _, _) =>
    case Paren(_, inner, _) => NoAssertionWords(py, inner);
    case Binary(_, l, _, r) => NoAssertionWords(py, l); NoAssertionWords(py, r);
    case Conditional(c, _, a, _, b) => NoAssertionWords(py, c); NoAssertionWords(py, a); NoAssertionWords(py, b);
  }

  lemma WordsDiffer(v: Text)
    requires v == Lit("true") || v == Lit("false") || v == Lit("null")
    ensures v != Lit("as") && v != Lit("satisfies")
  {
  }

  lemma {:induction false} NoAssertionFrom(ts: seq<Token>, i: nat)
    requires i <= |ts| && forall k :: 0 <= k < |ts| ==> !AssertionWord(ts[k])
    ensures FirstAssertion(ts, i).None?
    decreases |ts| - i
  {
    if i < |ts| { NoAssertionFrom(ts, i + 1); }
  }

  /** Stripping removes one pair of grouping parentheses from a group, nothing otherwise. */
  lemma StripStepOfTree(py: Python, e: Expr)
    requires WellFormed(py, e)
    ensures StripStep(Outer(e)) == if e.Paren? then (1, |Outer(e)| - 1) else (0, |Outer(e)|)
  {
    hide Grouped, FirstAssertion, AssertedAt, WellFormed;
    GroupedIffParen(py, e);
    OuterEdges(py, e);
    NoAssertionWords(py, e);
    NoAssertionFrom(Outer(e), 0);
  }

  /** The tree under all grouping parentheses. */
  function Core(py: Python, e: Expr): (c: Expr)
    requires WellFormed(py, e)
    ensures WellFormed(py, c) && !c.Paren? && Partial(py, c) == Partial(py, e)
  {
    if e.Paren? then Core(py, e.e) else e
  }

  lemma {:induction false} StripIsCore(py: Python, e: Expr)
    requires WellFormed(py, e)
    ensures Strip(Outer(e)) == Outer(Core(py, e))
    decreases e
  {
    hide StripStep, Strip;
    StripStepOfTree(py, e);
    StripUnfolds(Outer(e));
    if e.Paren? {
      assert Outer(e)[1..|Outer(e)| - 1] == Outer(e.e);
      StripIsCore(py, e.e);
    }
  }

  // ------------------------------------------------------------------ collapsing

  ghost predicate StartsFrom(ts: seq<Token>, a: int) {
    forall i :: 0 <= i < |ts| ==> ts[i].start >= a
  }

  /** `atomic_end` after a run of tokens. */
  function AtomicAfter(ts: seq<Token>, a: int): int {
    if ts == [] then a
    else AtomicAfter(ts[1..], if ts[0].start >= a && IsTemplate(ts[0]) then ts[0].end else a)
  }

  lemma {:induction false} CollapseConcat(x: seq<Token>, y: seq<Token>, a: int)
    ensures CollapseFrom(x + y, a) == CollapseFrom(x, a) + CollapseFrom(y, AtomicAfter(x, a))
    ensures AtomicAfter(x + y, a) == AtomicAfter(y, AtomicAfter(x, a))
  {
    if x == [] {
      assert x + y == y;
    } else {
      assert (x + y)[1..] == x[1..] + y;
      CollapseConcat(x[1..], y, if x[0].start >= a && IsTemplate(x[0]) then x[0].end else a);
    }
  }

  lemma {:induction false} CollapseHidden(ts: seq<Token>, a: int)
    requires forall i :: 0 <= i < |ts| ==> ts[i].start < a
    ensures CollapseFrom(ts, a) == [] && AtomicAfter(ts, a) == a
  {
    if ts != [] { CollapseHidden(ts[1..], a); }
  }

  /** Collapsing `printed` from any earlier bound yields `outer`, and moves the bound no
      further than the end of `outer`. */
  ghost predicate CollapsesTo(printed: seq<Token>, outer: seq<Token>) {
    forall a :: StartsFrom(outer, a) && Disjoint(outer) ==>
      CollapseFrom(printed, a) == outer &&
      (AtomicAfter(printed, a) <= if outer == [] then a else outer[|outer| - 1].end)
  }

  lemma DisjointSplit(x: seq<Token>, y: seq<Token>, a: int)
    requires Disjoint(x + y) && StartsFrom(x + y, a)
    ensures Disjoint(x) && Disjoint(y) && StartsFrom(x, a) && StartsFrom(y, a)
    ensures x != [] ==> StartsFrom(y, x[|x| - 1].end)
  {
    var xy := x + y;
    forall i | 0 <= i < |x| ensures xy[i] == x[i] {}
    forall i | 0 <= i < |y| ensures xy[|x| + i] == y[i] {}
    forall i | 0 <= i < |y| && x != [] ensures y[i].start >= x[|x| - 1].end { assert xy[|x| - 1].end <= xy[|x| + i].start; }
    forall i, j | 0 <= i < j < |y| ensures y[i].end <= y[j].start { assert xy[|x| + i].end <= xy[|x| + j].start; }
  }

  lemma CollapsesConcat(p: seq<Token>, x: seq<Token>, q: seq<Token>, y: seq<Token>)
    requires CollapsesTo(p, x) && CollapsesTo(q, y)
    ensures CollapsesTo(p + q, x + y)
  {
    forall a | StartsFrom(x + y, a) && Disjoint(x + y)
      ensures CollapseFrom(p + q, a) == x + y
      ensures AtomicAfter(p + q, a) <= if x + y == [] then a else (x + y)[|x + y| - 1].end
    {
      DisjointSplit(x, y, a);
      CollapseConcat(p, q, a);
      var b := AtomicAfter(p, a);
      assert StartsFrom(y, b);
      if y == [] { assert x + y == x; }
    }
  }

  lemma CollapsesOne(t: Token, hidden: seq<Token>)
    requires forall i :: 0 <= i < |hidden| ==> hidden[i].start < t.end
    requires hidden != [] ==> IsTemplate(t)
    ensures CollapsesTo([t] + hidden, [t])
  {
    forall a | StartsFrom([t], a) && Disjoint([t])
      ensures CollapseFrom([t] + hidden, a) == [t]
      ensures AtomicAfter([t] + hidden, a) <= t.end
    {
      assert [t][0].start >= a;
      assert ([t] + hidden)[1..] == hidden;
      if IsTemplate(t) { CollapseHidden(hidden, t.end); } else { assert hidden == []; }
    }
  }

  lemma {:induction false} CollapsesPlain(ts: seq<Token>)
    requires forall i :: 0 <= i < |ts| ==> !IsTemplate(ts[i])
    ensures CollapsesTo(ts, ts)
  {
    if ts == [] {
    } else {
      CollapsesPlain(ts[1..]);
      CollapsesOne(ts[0], []);
      assert [ts[0]] + [] == [ts[0]];
      CollapsesConcat([ts[0]], [ts[0]], ts[1..], ts[1..]);
      assert ts == [ts[0]] + ts[1..];
    }
  }

  lemma {:induction false} PrintedCollapses(py: Python, e: Expr)
    requires WellFormed(py, e)
    ensures CollapsesTo(Printed(e), Outer(e))
    decreases e
  {
    hide CollapsesTo;
    match e
    case StringLiteral(_) | Number(_) | Word(_, _) | Variable(_) => CollapsesPlain(Outer(e));
    case TemplateLiteral(t, _, parts) => CollapsesOne(t, PrintedParts(parts));
    case Paren(open, inner, close) =>
      PrintedCollapses(py, inner);
      CollapsesPlain([open]);
      CollapsesPlain([close]);
      CollapsesConcat([open], [open], Printed(inner), Outer(inner));
      CollapsesConcat([open] + Printed(inner), [open] + Outer(inner), [close], [close]);
    case Binary(op, l, ops, r) =>
      PrintedCollapses(py, l);
      PrintedCollapses(py, r);
      OpsArePlain(op, ops);
      CollapsesPlain(ops);
      CollapsesConcat(Printed(l), Outer(l), ops, ops);
      CollapsesConcat(Printed(l) + ops, Outer(l) + ops, Printed(r), Outer(r));
    case Conditional(c, question, a, colon, b) =>
      PrintedCollapses(py, c);
      PrintedCollapses(py, a);
      PrintedCollapses(py, b);
      CollapsesPlain([question]);
      CollapsesPlain([colon]);
      CollapsesConcat(Printed(c), Outer(c), [question], [question]);
      CollapsesConcat(Printed(c) + [question], Outer(c) + [question], Printed(a), Outer(a));
      CollapsesConcat(Printed(c) + [question] + Printed(a), Outer(c) + [question] + Outer(a), [colon], [colon]);
      CollapsesConcat(Printed(c) + [question] + Printed(a) + [colon], Outer(c) + [question] + Outer(a) + [colon], Printed(b), Outer(b));
  }

  lemma {:induction false} DisjointStays(ts: seq<Token>, a: int)
    requires Disjoint(ts) && StartsFrom(ts, a)
    ensures CollapseFrom(ts, a) == ts
  {
    if ts != [] {
      var b := if IsTemplate(ts[0]) then ts[0].end else a;
      assert ts == [ts[0]] + ts[1..];
      DisjointSplit([ts[0]], ts[1..], a);
      DisjointStays(ts[1..], b);
    }
  }

  // ------------------------------------------------------------------ the theorem

  /** Spans of the printed tree: disjoint at the outer level, and not before the text. */
  ghost predicate LaidOut(ts: seq<Token>) {
    Disjoint(ts) && StartsFrom(ts, 0)
  }

  lemma LaidOutParts(x: seq<Token>, y: seq<Token>, z: seq<Token>)
    requires LaidOut(x + y + z)
    ensures LaidOut(x) && LaidOut(y) && LaidOut(z)
  {
    DisjointSplit(x + y, z, 0);
    DisjointSplit(x, y, 0);
  }

  /** Evaluating the outer tokens of a tree gives the tree's partial value. */
  lemma {:induction false} OuterEvaluates(py: Python, e: Expr)
    requires WellFormed(py, e) && Untouched(e) && LaidOut(Outer(e))
    ensures ConstantExpressionValue(py, Outer(e)) == Partial(py, e)
    decreases e, 2
  {
    hide Evaluate, Strip, LaidOut, Outer;
    assert StartsFrom(Outer(e), -1) && Disjoint(Outer(e)) by { LaidOutStarts(Outer(e)); }
    DisjointStays(Outer(e), -1);
    StripIsCore(py, e);
    if e.Paren? {
      ParenInner(py, e);
      StripIsCore(py, e.e);
      OuterEvaluates(py, e.e);
      LaidOutStarts(Outer(e.e));
      DisjointStays(Outer(e.e), -1);
    } else {
      BareEvaluates(py, e);
    }
  }

  lemma LaidOutStarts(ts: seq<Token>)
    requires LaidOut(ts)
    ensures StartsFrom(ts, -1) && Disjoint(ts)
  {
  }

  lemma ParenInner(py: Python, e: Expr)
    requires e.Paren? && WellFormed(py, e) && Untouched(e) && LaidOut(Outer(e))
    ensures WellFormed(py, e.e) && Untouched(e.e) && LaidOut(Outer(e.e)) && Core(py, e) == Core(py, e.e) && Partial(py, e) == Partial(py, e.e)
  {
    LaidOutParts([e.open], Outer(e.e), [e.close]);
  }

  lemma {:induction false} BareEvaluates(py: Python, e: Expr)
    requires WellFormed(py, e) && Untouched(e) && LaidOut(Outer(e)) && !e.Paren?
    ensures Evaluate(py, Outer(e)) == Partial(py, e)
    decreases e, 1
  {
    hide LastOperator, ConditionalIndices, ConstantExpressionValue, LaidOut, ConstantPrimitive;
    match e
    case Binary(op, l, ops, r) =>
      LaidOutParts(Outer(l), ops, Outer(r));
      OuterEvaluates(py, l);
      OuterEvaluates(py, r);
      BinaryEvaluates(py, e);
    case Conditional(c, question, a, colon, b) =>
      var tail := Outer(a) + [colon] + Outer(b);
      assert Outer(e) == Outer(c) + [question] + tail;
      LaidOutParts(Outer(c), [question], tail);
      LaidOutParts(Outer(a), [colon], Outer(b));
      OuterEvaluates(py, c);
      OuterEvaluates(py, a);
      OuterEvaluates(py, b);
      ConditionalEvaluates(py, e);
    case _ => AtomEvaluates(py, e);
  }

  lemma BinaryEvaluates(py: Python, e: Expr)
    requires e.Binary? && WellFormed(py, e)
    requires ConstantExpressionValue(py, Outer(e.l)) == Partial(py, e.l) && ConstantExpressionValue(py, Outer(e.r)) == Partial(py, e.r)
    ensures Evaluate(py, Outer(e)) == Partial(py, e)
  {
    hide LastOperator, ConditionalIndices, ConstantExpressionValue, WellFormed;
    var Binary(op, l, ops, r) := e;
    var ts := Outer(e);
    BinaryShape(py, e);
    assert ts == Outer(l) + ops + Outer(r);
    assert ts[..|Outer(l)|] == Outer(l) && ts[|Outer(l)| + |ops|..] == Outer(r);
    RootIsLast(py, e);
    if op != CommaOp {
      NoWeaker(py, e, CommaOp);
      NoConditional(py, e);
      if op != NullishOp {
        NoWeaker(py, e, NullishOp);
        if op != OrOp {
          NoWeaker(py, e, OrOp);
          if op != AndOp { NoWeaker(py, e, AndOp); }
        }
      }
    }
  }

  lemma BinaryShape(py: Python, e: Expr)
    requires e.Binary? && WellFormed(py, e)
    ensures |e.ops| == |OpText(e.op)| && WellFormed(py, e.l) && WellFormed(py, e.r)
  {
  }

  lemma ConditionalEvaluates(py: Python, e: Expr)
    requires e.Conditional? && WellFormed(py, e) && Untouched(e)
    requires ConstantExpressionValue(py, Outer(e.c)) == Partial(py, e.c)
    requires ConstantExpressionValue(py, Outer(e.a)) == Partial(py, e.a) && ConstantExpressionValue(py, Outer(e.b)) == Partial(py, e.b)
    ensures Evaluate(py, Outer(e)) == Partial(py, e)
  {
    hide LastOperator, ConditionalIndices, ConstantExpressionValue, WellFormed;
    ConditionalShape(py, e);
    var ts := Outer(e);
    var q := |Outer(e.c)|;
    var k := q + 1 + |Outer(e.a)|;
    assert ts == Outer(e.c) + [e.question] + Outer(e.a) + [e.colon] + Outer(e.b);
    assert ts[..q] == Outer(e.c) && ts[q + 1..k] == Outer(e.a) && ts[k + 1..] == Outer(e.b);
    NoWeaker(py, e, CommaOp);
    UntouchedLosesNone(e.a);
    RootConditional(py, e);
  }

  lemma AtomEvaluates(py: Python, e: Expr)
    requires WellFormed(py, e) && Level(e) == 6 && !e.Paren?
    ensures Evaluate(py, Outer(e)) == Partial(py, e)
  {
    hide LastOperator, ConditionalIndices, ConstantExpressionValue, ConstantPrimitive, WellFormed;
    NoWeaker(py, e, CommaOp);
    NoWeaker(py, e, NullishOp);
    NoWeaker(py, e, OrOp);
    NoWeaker(py, e, AndOp);
    NoWeaker(py, e, PlusOp);
    NoConditional(py, e);
    AtomPrimitive(py, e);
  }

  lemma AtomPrimitive(py: Python, e: Expr)
    requires WellFormed(py, e) && Level(e) == 6 && !e.Paren?
    ensures Outer(e) != [] && ConstantPrimitive(py, Outer(e)) == Partial(py, e)
  {
    match e
    case Number(digits) => NumberPrimitive(py, digits);
    case Word(t, v) => WordPrimitive(py, t, v);
    case _ =>
  }

  lemma NumberPrimitive(py: Python, digits: seq<Token>)
    requires WellFormed(py, Number(digits))
    ensures ConstantPrimitive(py, digits) == NumberValue(py, digits)
  {
    forall i | 0 <= i < |digits| ensures AllDigits(py, digits[i].value) || digits[i].value == [DOT] { assert Digit(py, digits[i]); }
  }

  lemma WordPrimitive(py: Python, t: Token, v: Value)
    requires WellFormed(py, Word(t, v))
    ensures ConstantPrimitive(py, [t]) == Known(v)
  {
    assert Lit("true")[0] == 't' as int && Lit("false")[0] == 'f' as int && Lit("null")[0] == 'n' as int;
  }

  /** The flat-token evaluator on the printed tokens of a tree, in any layout, computes the
      tree's partial value. */
  lemma PrintedEvaluates(py: Python, e: Expr)
    requires WellFormed(py, e) && Untouched(e) && LaidOut(Outer(e))
    ensures ConstantExpressionValue(py, Printed(e)) == Partial(py, e)
  {
    hide Evaluate, Strip, Outer, Printed;
    PrintedCollapses(py, e);
    LaidOutStarts(Outer(e));
    assert Collapse(Printed(e)) == Outer(e);
    DisjointStays(Outer(e), -1);
    OuterEvaluates(py, e);
  }

  /** A constant found by the evaluator is the value of the expression in every run, whatever
      its opaque identifiers hold. */
  lemma KnownConstantIsMeaning(py: Python, e: Expr, run: Run)
    requires WellFormed(py, e) && Untouched(e) && LaidOut(Outer(e)) && ConstantExpressionValue(py, Printed(e)).Known?
    ensures Meaning(py, e, run) == Primitive(ConstantExpressionValue(py, Printed(e)).v)
  {
    PrintedEvaluates(py, e);
    PartialIsSound(py, e, run);
  }

  /** An expression without identifiers is evaluated to its meaning, or evaluation raises. */
  lemma ClosedExpressionIsEvaluated(py: Python, e: Expr, run: Run)
    requires WellFormed(py, e) && Untouched(e) && LaidOut(Outer(e)) && Closed(e)
    ensures var o := ConstantExpressionValue(py, Printed(e));
            o.Raises? || (o.Known? && Meaning(py, e, run) == Primitive(o.v))
  {
    PrintedEvaluates(py, e);
    ClosedIsKnown(py, e);
    if Partial(py, e).Known? { PartialIsSound(py, e, run); }
  }
}
