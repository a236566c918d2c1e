/** Destructuring pattern trees, their printed tokens, and the proof that the flat scan of
    `_binding_names_in_pattern` returns exactly the names the tree binds. */
module PatternTree {
  import opened Text
  import opened Lists
  import opened Tokens
  import opened ConstEval
  import opened Patterns

  datatype Pattern =
    | Name(t: Token)
    | Bracketed(open: Token, items: Items, close: Token)

  /** Comma-separated elements; a hole is an empty element. */
  datatype Items = Last(e: Element) | More(e: Element, comma: Token, rest: Items)

  /** `...key: pattern = default`; `key` ends in its colon, `default` starts with its `=`. */
  datatype Element = Hole | Element(dots: seq<Token>, key: seq<Token>, p: Pattern, default: seq<Token>)

  function Printed(p: Pattern): seq<Token> {
    match p
    case Name(t) => [t]
    case Bracketed(open, items, close) => [open] + PrintedItems(items) + [close]
  }

  function PrintedItems(items: Items): seq<Token> {
    match items
    case Last(e) => PrintedElement(e)
    case More(e, comma, rest) => PrintedElement(e) + [comma] + PrintedItems(rest)
  }

  function PrintedElement(e: Element): seq<Token> {
    match e
    case Hole => []
    case Element(dots, key, p, default) => dots + key + Printed(p) + default
  }

  /** All names a pattern binds. */
  function Names(p: Pattern): set<Text> {
    match p
    case Name(t) => {t.value}
    case Bracketed(_, items, _) => ItemNames(items)
  }

  function ItemNames(items: Items): set<Text> {
    match items
    case Last(e) => ElementNames(e)
    case More(e, _, rest) => ElementNames(e) + ItemNames(rest)
  }

  function ElementNames(e: Element): set<Text> {
    match e
    case Hole => {}
    case Element(_, _, p, _) => Names(p)
  }

  // ------------------------------------------------------------------ balanced runs

  /** Strict matching of every bracket; a `>` outside type arguments is an operator. */
  function StrictStep(stack: seq<Text>, v: Text): Option<seq<Text>> {
    if Opening(v) then Some(stack + [v])
    else if Closes(stack, v) then Some(stack[..|stack| - 1])
    else if Closing(v) && v != [GREATER] then None
    else Some(stack)
  }

  function StrictAll(ts: seq<Token>): Option<seq<Text>> {
    if ts == [] then Some([])
    else
      var front := StrictAll(ts[..|ts| - 1]);
      if front.None? then None else StrictStep(front.value, ts[|ts| - 1].value)
  }

  /** Every bracket of the run is matched inside it (so no bare `<`). */
  predicate Matched(ts: seq<Token>) { StrictAll(ts) == Some([]) }

  /** Contexts in which a bare `>` is no closer. */
  predicate Context(stack: seq<Text>) { stack == [] || stack[|stack| - 1] != [LESS] }

  function Depth(ts: seq<Token>, opener: Text, closer: Text): int {
    if ts == [] then 0
    else Depth(ts[..|ts| - 1], opener, closer) +
         (if ts[|ts| - 1].value == opener then 1 else if ts[|ts| - 1].value == closer then -1 else 0)
  }

  ghost predicate DepthOk(ts: seq<Token>, opener: Text, closer: Text) {
    Depth(ts, opener, closer) == 0 && forall k :: 0 <= k <= |ts| ==> Depth(ts[..k], opener, closer) >= 0
  }

  /** The run returns every stack, never pops below it, and is balanced in each bracket kind. */
  ghost predicate Balanced(ts: seq<Token>) {
    && (forall stack :: Context(stack) ==> NestAll(stack, ts) == stack)
    && (forall stack, k :: Context(stack) && 0 <= k <= |ts| ==> stack <= NestAll(stack, ts[..k]))
    && DepthOk(ts, [LBRACE], [RBRACE]) && DepthOk(ts, [LBRACKET], [RBRACKET])
  }

  lemma {:induction false} NestConcat(stack: seq<Text>, a: seq<Token>, b: seq<Token>)
    ensures NestAll(stack, a + b) == NestAll(NestAll(stack, a), b)
  {
    hide Nest;
    if b == [] {
      assert a + b == a;
    } else {
      NestConcat(stack, a, b[..|b| - 1]);
      assert (a + b)[..|a + b| - 1] == a + b[..|b| - 1];
    }
  }

  lemma {:induction false} DepthConcat(a: seq<Token>, b: seq<Token>, opener: Text, closer: Text)
    ensures Depth(a + b, opener, closer) == Depth(a, opener, closer) + Depth(b, opener, closer)
  {
    if b == [] {
      assert a + b == a;
    } else {
      DepthConcat(a, b[..|b| - 1], opener, closer);
      assert (a + b)[..|a + b| - 1] == a + b[..|b| - 1];
    }
  }

  lemma DepthOkConcat(a: seq<Token>, b: seq<Token>, opener: Text, closer: Text)
    requires DepthOk(a, opener, closer) && DepthOk(b, opener, closer)
    ensures DepthOk(a + b, opener, closer)
  {
    hide Depth;
    DepthConcat(a, b, opener, closer);
    forall k | 0 <= k <= |a + b| ensures Depth((a + b)[..k], opener, closer) >= 0 {
      if k <= |a| {
        assert (a + b)[..k] == a[..k];
      } else {
        assert (a + b)[..k] == a + b[..k - |a|];
        DepthConcat(a, b[..k - |a|], opener, closer);
      }
    }
  }

  lemma BalancedConcat(a: seq<Token>, b: seq<Token>)
    requires Balanced(a) && Balanced(b)
    ensures Balanced(a + b)
  {
    hide NestAll, DepthOk;
    forall stack | Context(stack) ensures NestAll(stack, a + b) == stack { NestConcat(stack, a, b); }
    forall stack, k | Context(stack) && 0 <= k <= |a + b| ensures stack <= NestAll(stack, (a + b)[..k]) {
      if k <= |a| {
        assert (a + b)[..k] == a[..k];
      } else {
        assert (a + b)[..k] == a + b[..k - |a|];
        NestConcat(stack, a, b[..k - |a|]);
      }
    }
    DepthOkConcat(a, b, [LBRACE], [RBRACE]);
    DepthOkConcat(a, b, [LBRACKET], [RBRACKET]);
  }

  predicate Plain(t: Token) { !Opening(t.value) && !Closing(t.value) }

  lemma {:induction false} PlainKeeps(stack: seq<Text>, ts: seq<Token>)
    requires forall i :: 0 <= i < |ts| ==> Plain(ts[i])
    ensures NestAll(stack, ts) == stack
    ensures Depth(ts, [LBRACE], [RBRACE]) == 0 && Depth(ts, [LBRACKET], [RBRACKET]) == 0
  {
    if ts != [] { PlainKeeps(stack, ts[..|ts| - 1]); }
  }

  lemma PlainIsBalanced(ts: seq<Token>)
    requires forall i :: 0 <= i < |ts| ==> Plain(ts[i])
    ensures Balanced(ts)
  {
    hide NestAll, Depth;
    forall stack ensures NestAll(stack, ts) == stack { PlainKeeps(stack, ts); }
    forall stack, k | 0 <= k <= |ts| ensures stack <= NestAll(stack, ts[..k]) { PlainKeeps(stack, ts[..k]); }
    PlainKeeps([], ts);
    forall k | 0 <= k <= |ts|
      ensures Depth(ts[..k], [LBRACE], [RBRACE]) >= 0 && Depth(ts[..k], [LBRACKET], [RBRACKET]) >= 0
    {
      PlainKeeps([], ts[..k]);
    }
  }

  predicate Pair(open: Token, close: Token) {
    (open.value == [LBRACE] && close.value == [RBRACE]) || (open.value == [LBRACKET] && close.value == [RBRACKET])
  }

  lemma NestOne(stack: seq<Text>, t: Token)
    ensures NestAll(stack, [t]) == Nest(stack, t.value)
  {
    assert [t][..0] == [];
    assert NestAll(stack, [t][..0]) == stack;
  }

  lemma DepthOne(t: Token, opener: Text, closer: Text)
    ensures Depth([t], opener, closer) == if t.value == opener then 1 else if t.value == closer then -1 else 0
  {
    assert [t][..0] == [];
    assert Depth([t][..0], opener, closer) == 0;
  }

  lemma GroupDepth(open: Token, ts: seq<Token>, close: Token, opener: Text, closer: Text)
    requires DepthOk(ts, opener, closer) && opener != closer
    requires (open.value == opener && close.value == closer) ||
             (open.value != opener && open.value != closer && close.value != opener && close.value != closer)
    ensures DepthOk([open] + ts + [close], opener, closer)
  {
    hide Depth;
    var all := [open] + ts + [close];
    DepthOne(open, opener, closer);
    DepthOne(close, opener, closer);
    DepthConcat([open] + ts, [close], opener, closer);
    DepthConcat([open], ts, opener, closer);
    forall k | 0 <= k <= |all| ensures Depth(all[..k], opener, closer) >= 0 {
      if k == 0 { assert all[..k] == []; PlainDepth(opener, closer); }
      else if k <= |ts| + 1 {
        assert all[..k] == [open] + ts[..k - 1];
        DepthConcat([open], ts[..k - 1], opener, closer);
      } else { assert all[..k] == all; }
    }
  }

  lemma PlainDepth(opener: Text, closer: Text)
    ensures Depth([], opener, closer) == 0
  {
  }

  lemma GroupIsBalanced(open: Token, ts: seq<Token>, close: Token)
    requires Pair(open, close) && Balanced(ts)
    ensures Balanced([open] + ts + [close])
    ensures forall k :: 0 < k <= 1 + |ts| ==> NestAll([], ([open] + ts + [close])[..k]) != []
  {
    hide NestAll, DepthOk;
    var all := [open] + ts + [close];
    forall stack, k | Context(stack) && 0 < k <= 1 + |ts| ensures stack <= NestAll(stack, all[..k]) && NestAll(stack, all[..k]) != [] {
      assert all[..k] == [open] + ts[..k - 1];
      NestConcat(stack, [open], ts[..k - 1]);
      NestOne(stack, open);
      assert Context(stack + [open.value]);
      PrefixOfLonger(stack, open.value, NestAll(stack, all[..k]));
    }
    assert Context([]);
    forall stack | Context(stack) ensures NestAll(stack, all) == stack {
      assert Context(stack + [open.value]);
      NestConcat(stack, [open] + ts, [close]);
      NestConcat(stack, [open], ts);
      NestOne(stack, open);
      NestOne(stack + [open.value], close);
    }
    forall stack, k | Context(stack) && 0 <= k <= |all| ensures stack <= NestAll(stack, all[..k]) {
      if k == |all| { assert all[..k] == all; }
      else if k == 0 { assert all[..0] == []; PlainKeeps(stack, []); }
    }
    GroupDepth(open, ts, close, [LBRACE], [RBRACE]);
    GroupDepth(open, ts, close, [LBRACKET], [RBRACKET]);
  }

  function Count(stack: seq<Text>, v: Text): nat {
    if stack == [] then 0 else Count(stack[..|stack| - 1], v) + (if stack[|stack| - 1] == v then 1 else 0)
  }

  lemma CountPush(stack: seq<Text>, x: Text, v: Text)
    ensures Count(stack + [x], v) == Count(stack, v) + (if x == v then 1 else 0)
  {
    assert (stack + [x])[..|stack|] == stack;
  }

  lemma StrictStepIsNest(stack: seq<Text>, s: seq<Text>, v: Text)
    requires Context(stack) && StrictStep(s, v).Some?
    ensures Nest(stack + s, v) == stack + StrictStep(s, v).value
  {
    if s != [] {
      assert (stack + s)[|stack + s| - 1] == s[|s| - 1];
      assert (stack + s)[..|stack + s| - 1] == stack + s[..|s| - 1];
    } else {
      assert stack + s == stack;
    }
  }

  lemma StrictStepCounts(s: seq<Text>, v: Text, opener: Text, closer: Text)
    requires StrictStep(s, v).Some?
    requires (opener == [LBRACE] && closer == [RBRACE]) || (opener == [LBRACKET] && closer == [RBRACKET])
    ensures Count(StrictStep(s, v).value, opener) == Count(s, opener) + (if v == opener then 1 else if v == closer then -1 else 0)
  {
    CountPush(s, v, opener);
  }

  /** Strict matching determines the lenient stack in any context, and the depths. */
  lemma {:induction false} StrictIsLenient(ts: seq<Token>, stack: seq<Text>)
    requires StrictAll(ts).Some? && Context(stack)
    ensures NestAll(stack, ts) == stack + StrictAll(ts).value
    ensures Depth(ts, [LBRACE], [RBRACE]) == Count(StrictAll(ts).value, [LBRACE])
    ensures Depth(ts, [LBRACKET], [RBRACKET]) == Count(StrictAll(ts).value, [LBRACKET])
  {
    hide Nest, StrictStep;
    if ts != [] {
      StrictIsLenient(ts[..|ts| - 1], stack);
      var s := StrictAll(ts[..|ts| - 1]).value;
      var v := ts[|ts| - 1].value;
      StrictStepIsNest(stack, s, v);
      StrictStepCounts(s, v, [LBRACE], [RBRACE]);
      StrictStepCounts(s, v, [LBRACKET], [RBRACKET]);
    }
  }

  lemma {:induction false} StrictPrefix(ts: seq<Token>, k: nat)
    requires StrictAll(ts).Some? && k <= |ts|
    ensures StrictAll(ts[..k]).Some?
    decreases |ts|
  {
    if k < |ts| {
      StrictPrefix(ts[..|ts| - 1], k);
      assert ts[..|ts| - 1][..k] == ts[..k];
    } else {
      assert ts[..k] == ts;
    }
  }

  lemma MatchedIsBalanced(ts: seq<Token>)
    requires Matched(ts)
    ensures Balanced(ts)
  {
    hide NestAll, Depth, StrictAll;
    forall stack | Context(stack) ensures NestAll(stack, ts) == stack {
      StrictIsLenient(ts, stack);
      assert stack + [] == stack;
    }
    StrictIsLenient(ts, []);
    forall stack, k | Context(stack) && 0 <= k <= |ts| ensures stack <= NestAll(stack, ts[..k]) {
      StrictPrefix(ts, k);
      StrictIsLenient(ts[..k], stack);
    }
    forall k | 0 <= k <= |ts|
      ensures Depth(ts[..k], [LBRACE], [RBRACE]) >= 0 && Depth(ts[..k], [LBRACKET], [RBRACKET]) >= 0
    {
      StrictPrefix(ts, k);
      StrictIsLenient(ts[..k], []);
    }
  }

  // ------------------------------------------------------------------ nothing at top level

  /** `v` does not stand outside all brackets of the run. */
  ghost predicate Absent(ts: seq<Token>, v: Text) {
    forall k :: 0 <= k < |ts| && NestAll([], ts[..k]) == [] ==> ts[k].value != v
  }

  lemma AbsentConcat(a: seq<Token>, b: seq<Token>, v: Text)
    requires Absent(a, v) && Absent(b, v) && Balanced(a)
    ensures Absent(a + b, v)
  {
    hide NestAll;
    forall k | 0 <= k < |a + b| && NestAll([], (a + b)[..k]) == [] ensures (a + b)[k].value != v {
      if k < |a| {
        assert (a + b)[..k] == a[..k];
      } else {
        assert (a + b)[..k] == a + b[..k - |a|];
        NestConcat([], a, b[..k - |a|]);
      }
    }
  }

  lemma AbsentGroup(open: Token, ts: seq<Token>, close: Token, v: Text)
    requires Pair(open, close) && Balanced(ts) && open.value != v
    ensures Absent([open] + ts + [close], v)
  {
    hide NestAll;
    GroupIsBalanced(open, ts, close);
  }

  // ------------------------------------------------------------------ well-formed patterns

  predicate OrdinaryName(t: Token) {
    && t.kind.Identifier? && Plain(t)
    && t.value != [COMMA] && t.value != [EQUALS] && t.value != [COLON] && t.value != [DOT]
  }

  ghost predicate WellFormed(p: Pattern) {
    match p
    case Name(t) => OrdinaryName(t)
    case Bracketed(open, items, close) =>
      Pair(open, close) && !open.kind.Identifier? && WellFormedItems(items, open.value == [LBRACE])
  }

  ghost predicate WellFormedItems(items: Items, keyed: bool) {
    match items
    case Last(e) => WellFormedElement(e, keyed)
    case More(e, comma, rest) => WellFormedElement(e, keyed) && comma.value == [COMMA] && WellFormedItems(rest, keyed)
  }

  /** Keys and defaults are any matched runs without the delimiter that would end them. */
  ghost predicate WellFormedElement(e: Element, keyed: bool) {
    match e
    case Hole => true
    case Element(dots, key, p, default) =>
      && (forall i :: 0 <= i < |dots| ==> dots[i].value == [DOT])
      && WellFormed(p)
      && (key != [] ==>
            keyed && key[|key| - 1].value == [COLON] && key[0].value != [DOT] && Matched(key[..|key| - 1]) &&
            Absent(key[..|key| - 1], [COMMA]) && Absent(key[..|key| - 1], [EQUALS]) && Absent(key[..|key| - 1], [COLON]))
      && (default != [] ==> default[0].value == [EQUALS] && Matched(default[1..]) && Absent(default[1..], [COMMA]))
  }

  lemma PlainAbsent(t: Token, v: Text)
    requires t.value != v
    ensures Absent([t], v)
  {
  }

  lemma KeyShape(key: seq<Token>)
    requires key != [] ==>
               key[|key| - 1].value == [COLON] && Matched(key[..|key| - 1]) &&
               Absent(key[..|key| - 1], [COMMA]) && Absent(key[..|key| - 1], [EQUALS])
    ensures Balanced(key) && Absent(key, [COMMA]) && Absent(key, [EQUALS])
  {
    hide Balanced, Absent, Matched;
    if key == [] {
      PlainIsBalanced(key);
      NothingAbsent(key, [COMMA]);
      NothingAbsent(key, [EQUALS]);
    } else {
      var front, colon := key[..|key| - 1], key[|key| - 1];
      MatchedIsBalanced(front);
      PlainIsBalanced([colon]);
      BalancedConcat(front, [colon]);
      PlainAbsent(colon, [COMMA]);
      PlainAbsent(colon, [EQUALS]);
      AbsentConcat(front, [colon], [COMMA]);
      AbsentConcat(front, [colon], [EQUALS]);
      assert front + [colon] == key;
    }
  }

  lemma NothingAbsent(ts: seq<Token>, v: Text)
    requires ts == []
    ensures Absent(ts, v)
  {
  }

  lemma {:induction false} PatternShape(p: Pattern)
    requires WellFormed(p)
    ensures Balanced(Printed(p)) && Absent(Printed(p), [COMMA]) && Absent(Printed(p), [EQUALS]) && Absent(Printed(p), [COLON])
    ensures Printed(p)[0].value != [DOT]
    decreases p
  {
    hide Balanced, Absent;
    match p
    case Name(t) =>
      PlainIsBalanced([t]);
      PlainAbsent(t, [COMMA]);
      PlainAbsent(t, [EQUALS]);
      PlainAbsent(t, [COLON]);
    case Bracketed(open, items, close) =>
      ItemsShape(items, open.value == [LBRACE]);
      GroupIsBalanced(open, PrintedItems(items), close);
      AbsentGroup(open, PrintedItems(items), close, [COMMA]);
      AbsentGroup(open, PrintedItems(items), close, [EQUALS]);
      AbsentGroup(open, PrintedItems(items), close, [COLON]);
  }

  lemma {:induction false} ItemsShape(items: Items, keyed: bool)
    requires WellFormedItems(items, keyed)
    ensures Balanced(PrintedItems(items))
    decreases items
  {
    hide Balanced, Absent;
    match items
    case Last(e) => ElementShape(e, keyed);
    case More(e, comma, rest) =>
      ElementShape(e, keyed);
      PlainIsBalanced([comma]);
      ItemsShape(rest, keyed);
      BalancedConcat(PrintedElement(e), [comma]);
      BalancedConcat(PrintedElement(e) + [comma], PrintedItems(rest));
  }

  lemma {:induction false} ElementShape(e: Element, keyed: bool)
    requires WellFormedElement(e, keyed)
    ensures Balanced(PrintedElement(e)) && Absent(PrintedElement(e), [COMMA])
    decreases e
  {
    hide Balanced, Absent, Matched;
    match e
    case Hole =>
      PlainIsBalanced([]);
      NothingAbsent([], [COMMA]);
    case Element(dots, key, p, default) =>
      PlainIsBalanced(dots);
      DotsAbsent(dots);
      KeyShape(key);
      PatternShape(p);
      if default == [] {
        PlainIsBalanced(default);
        NothingAbsent(default, [COMMA]);
      } else {
        var equals, value := default[0], default[1..];
        MatchedIsBalanced(value);
        PlainIsBalanced([equals]);
        BalancedConcat([equals], value);
        PlainAbsent(equals, [COMMA]);
        AbsentConcat([equals], value, [COMMA]);
        assert [equals] + value == default;
      }
      BalancedConcat(dots, key);
      BalancedConcat(dots + key, Printed(p));
      BalancedConcat(dots + key + Printed(p), default);
      AbsentConcat(dots, key, [COMMA]);
      AbsentConcat(dots + key, Printed(p), [COMMA]);
      AbsentConcat(dots + key + Printed(p), default, [COMMA]);
  }

  lemma DotsAbsent(dots: seq<Token>)
    requires forall i :: 0 <= i < |dots| ==> dots[i].value == [DOT]
    ensures Absent(dots, [COMMA])
  {
  }

  // ------------------------------------------------------------------ the scans on printed runs

  lemma {:induction false} SplitPasses(ts: seq<Token>, rest: seq<Token>, delimiter: Text, current: seq<Token>)
    requires Absent(ts, delimiter) && !Opening(delimiter) && !Closing(delimiter)
    ensures SplitFrom(ts + rest, delimiter, [], current) == SplitFrom(rest, delimiter, NestAll([], ts), current + ts)
    decreases |ts|
  {
    if ts == [] {
      assert ts + rest == rest && current + ts == current;
    } else {
      var a, t := ts[..|ts| - 1], ts[|ts| - 1];
      assert Absent(a, delimiter) by {
        forall k | 0 <= k < |a| && NestAll([], a[..k]) == [] ensures a[k].value != delimiter { assert a[..k] == ts[..k]; }
      }
      assert ts + rest == a + ([t] + rest);
      SplitPasses(a, [t] + rest, delimiter, current);
      assert ([t] + rest)[1..] == rest && current + ts == (current + a) + [t];
    }
  }

  lemma {:induction false} TopIndexPasses(ts: seq<Token>, v: Text, a: nat, b: nat)
    requires a <= b <= |ts| && !Opening(v) && !Closing(v)
    requires forall k :: a <= k < b && NestAll([], ts[..k]) == [] ==> ts[k].value != v
    ensures TopIndexFrom(ts, v, a, NestAll([], ts[..a])) == TopIndexFrom(ts, v, b, NestAll([], ts[..b]))
    decreases b - a
  {
    if a < b {
      TopIndexPasses(ts, v, a + 1, b);
      assert ts[..a + 1][..a] == ts[..a];
    }
  }

  lemma AbsentIsNotFound(ts: seq<Token>, v: Text)
    requires Absent(ts, v) && !Opening(v) && !Closing(v)
    ensures TopIndex(ts, v).None?
  {
    assert ts[..0] == [];
    assert NestAll([], ts[..0]) == [];
    TopIndexPasses(ts, v, 0, |ts|);
  }

  lemma FirstIsFound(a: seq<Token>, t: Token, b: seq<Token>)
    requires Absent(a, t.value) && Balanced(a) && Plain(t)
    ensures TopIndex(a + [t] + b, t.value) == Some(|a|)
  {
    var ts := a + [t] + b;
    assert ts[..0] == [] && ts[..|a|] == a;
    assert NestAll([], ts[..0]) == [];
    forall k | 0 <= k < |a| && NestAll([], ts[..k]) == [] ensures ts[k].value != t.value { assert ts[..k] == a[..k]; }
    TopIndexPasses(ts, t.value, 0, |a|);
    assert ts[|a|] == t;
  }

  /** The binding part of a printed element is its pattern. */
  lemma PartOfElement(e: Element, keyed: bool)
    requires e.Element? && WellFormedElement(e, keyed)
    ensures SkipDots(PrintedElement(e)) != []
    ensures BindingPart(PrintedElement(e), keyed) == Printed(e.p)
  {
    hide Balanced, Absent, Matched, TopIndex, SkipDots;
    var Element(dots, key, p, default) := e;
    PatternShape(p);
    KeyShape(key);
    assert PrintedElement(e) == dots + (key + Printed(p) + default);
    assert (key + Printed(p) + default)[0] == if key == [] then Printed(p)[0] else key[0];
    DotsAreSkipped(dots, key + Printed(p) + default);
    BalancedConcat(key, Printed(p));
    AbsentConcat(key, Printed(p), [EQUALS]);
    EqualsOfElement(key + Printed(p), default);
    ColonOfElement(key, Printed(p));
  }

  lemma EqualsOfElement(body: seq<Token>, default: seq<Token>)
    requires Balanced(body) && Absent(body, [EQUALS]) && (default != [] ==> default[0].value == [EQUALS])
    ensures var equals := TopIndex(body + default, [EQUALS]);
            (if equals.Some? then (body + default)[..equals.value] else body + default) == body
  {
    hide Balanced, Absent, TopIndex;
    if default == [] {
      assert body + default == body;
      AbsentIsNotFound(body, [EQUALS]);
    } else {
      assert body + default == body + [default[0]] + default[1..];
      FirstIsFound(body, default[0], default[1..]);
      assert (body + default)[..|body|] == body;
    }
  }

  lemma ColonOfElement(key: seq<Token>, pattern: seq<Token>)
    requires Absent(pattern, [COLON])
    requires key != [] ==> key[|key| - 1].value == [COLON] && Matched(key[..|key| - 1]) && Absent(key[..|key| - 1], [COLON])
    ensures var colon := TopIndex(key + pattern, [COLON]);
            (if key != [] then colon.Some? && (key + pattern)[colon.value + 1..] == pattern else colon.None? && key + pattern == pattern)
  {
    hide Balanced, Absent, Matched, TopIndex;
    if key == [] {
      assert key + pattern == pattern;
      AbsentIsNotFound(pattern, [COLON]);
    } else {
      var front, colon := key[..|key| - 1], key[|key| - 1];
      MatchedIsBalanced(front);
      assert key + pattern == front + [colon] + pattern;
      FirstIsFound(front, colon, pattern);
      assert (key + pattern)[|front| + 1..] == pattern;
    }
  }

  lemma {:induction false} DotsAreSkipped(dots: seq<Token>, rest: seq<Token>)
    requires forall i :: 0 <= i < |dots| ==> dots[i].value == [DOT]
    requires rest != [] && rest[0].value != [DOT]
    ensures SkipDots(dots + rest) == rest
  {
    if dots == [] {
      assert dots + rest == rest;
    } else {
      assert (dots + rest)[1..] == dots[1..] + rest;
      DotsAreSkipped(dots[1..], rest);
    }
  }

  lemma {:induction false} ClosePasses(ts: seq<Token>, i: nat, k: nat, part: seq<Token>, opener: Text, closer: Text)
    requires i + |part| <= |ts| && ts[i..i + |part|] == part && k <= |part|
    requires DepthOk(part, opener, closer)
    ensures CloseAfter(ts, i, 1, opener, closer) == CloseAfter(ts, i + k, 1 + Depth(part[..k], opener, closer), opener, closer)
    decreases k
  {
    if k == 0 {
      assert part[..0] == [];
    } else {
      ClosePasses(ts, i, k - 1, part, opener, closer);
      assert part[..k][..k - 1] == part[..k - 1];
      assert ts[i + k - 1] == ts[i..i + |part|][k - 1] == part[k - 1];
    }
  }

  // ------------------------------------------------------------------ the theorem

  /** Names the scan reports: all but those it takes for modifiers. */
  function Reported(names: set<Text>): set<Text> {
    set v | v in names && !Modifier(v)
  }

  lemma {:induction false} EntriesOfItems(items: Items, keyed: bool, bindings: set<Text>, size: nat)
    requires WellFormedItems(items, keyed) && |PrintedItems(items)| < size
    ensures forall i :: 0 <= i < |Split(PrintedItems(items), [COMMA])| ==> |Split(PrintedItems(items), [COMMA])[i]| < size
    ensures EntryNames(Split(PrintedItems(items), [COMMA]), keyed, bindings, size) == Reported(ItemNames(items)) * bindings
    decreases items, 0
  {
    hide BindingPart, BindingNames, Balanced, Absent, Modifier;
    match items
    case Last(e) =>
      ElementShape(e, keyed);
      OneEntry(PrintedElement(e));
      ElementIsReported(e, keyed, bindings);
      assert [PrintedElement(e)][1..] == [];
    case More(e, comma, rest) =>
      ElementShape(e, keyed);
      FirstEntry(PrintedElement(e), comma, PrintedItems(rest));
      ElementIsReported(e, keyed, bindings);
      EntriesOfItems(rest, keyed, bindings, size);
      var later := Split(PrintedItems(rest), [COMMA]);
      assert ([PrintedElement(e)] + later)[1..] == later;
      assert Reported(ItemNames(items)) == Reported(ElementNames(e)) + Reported(ItemNames(rest));
  }

  lemma OneEntry(ts: seq<Token>)
    requires Balanced(ts) && Absent(ts, [COMMA])
    ensures Split(ts, [COMMA]) == [ts]
  {
    SplitPasses(ts, [], [COMMA], []);
    assert ts + [] == ts && [] + ts == ts;
  }

  lemma FirstEntry(ts: seq<Token>, comma: Token, rest: seq<Token>)
    requires Balanced(ts) && Absent(ts, [COMMA]) && comma.value == [COMMA]
    ensures Split(ts + [comma] + rest, [COMMA]) == [ts] + Split(rest, [COMMA])
  {
    SplitPasses(ts, [comma] + rest, [COMMA], []);
    assert ts + [comma] + rest == ts + ([comma] + rest) && [] + ts == ts;
    assert ([comma] + rest)[1..] == rest;
  }

  lemma {:induction false} ElementIsReported(e: Element, keyed: bool, bindings: set<Text>)
    requires WellFormedElement(e, keyed)
    ensures (if SkipDots(PrintedElement(e)) == [] then {} else BindingNames(BindingPart(PrintedElement(e), keyed), bindings))
            == Reported(ElementNames(e)) * bindings
    decreases e, 0
  {
    hide BindingPart, BindingNames, Balanced, Absent, Modifier;
    if e.Element? {
      PartOfElement(e, keyed);
      PatternIsReported(e.p, bindings);
    }
  }

  /** The scan of a printed pattern reports exactly the names it binds, except names that
      are spelt like TypeScript parameter modifiers. */
  lemma {:induction false} PatternIsReported(p: Pattern, bindings: set<Text>)
    requires WellFormed(p)
    ensures BindingNames(Printed(p), bindings) == Reported(Names(p)) * bindings
    decreases p, 1
  {
    hide BindingNames, Reported, WellFormed;
    ParameterIsReported([], p, [], bindings);
    assert [] + Printed(p) + [] == Printed(p);
  }

  lemma BracketedNames(modifiers: seq<Token>, p: Pattern, trailing: seq<Token>, bindings: set<Text>)
    requires p.Bracketed? && WellFormed(p)
    requires forall i :: 0 <= i < |modifiers| ==> modifiers[i].value == [DOT] || Modifier(modifiers[i].value)
    ensures var ts := modifiers + Printed(p) + trailing;
            var entries := Split(PrintedItems(p.items), [COMMA]);
            (forall i :: 0 <= i < |entries| ==> |entries[i]| < |ts|) &&
            BindingNames(ts, bindings) == EntryNames(entries, p.open.value == [LBRACE], bindings, |ts|)
  {
    hide Split, BindingNames, EntryNames, Balanced, Absent, Modifier, CloseAfter, SkipModifiers;
    var inner := PrintedItems(p.items);
    var ts := modifiers + Printed(p) + trailing;
    assert ts == modifiers + ([p.open] + inner + [p.close] + trailing);
    ShortIsNoModifier(p.open.value);
    SkipsModifiers(modifiers, [p.open] + inner + [p.close] + trailing);
    ItemsShape(p.items, p.open.value == [LBRACE]);
    assert Pair(p.open, p.close);
    assert ts[|modifiers| + 1..|modifiers| + 1 + |inner|] == inner && ts[|modifiers| + 1 + |inner|] == p.close;
    CloseIsFound(ts, |modifiers| + 1, p.open, inner, p.close);
    BindingNamesUnfold(ts, |modifiers|, |modifiers| + |inner| + 2, bindings);
    assert ts[|modifiers| + 1..|modifiers| + |inner| + 1] == inner;
  }

  lemma CloseIsFound(ts: seq<Token>, m: nat, open: Token, inner: seq<Token>, close: Token)
    requires Pair(open, close) && Balanced(inner)
    requires m + |inner| < |ts| && ts[m..m + |inner|] == inner && ts[m + |inner|] == close
    ensures CloseAfter(ts, m, 1, open.value, close.value) == Some(m + |inner| + 1)
  {
    hide Depth, DepthOk, Balanced, CloseAfter;
    DepthOfBalanced(inner);
    ClosePasses(ts, m, |inner|, inner, open.value, close.value);
    assert inner[..|inner|] == inner;
    CloseHere(ts, m + |inner|, open.value, close.value);
  }

  lemma CloseHere(ts: seq<Token>, i: nat, opener: Text, closer: Text)
    requires i < |ts| && ts[i].value == closer != opener
    ensures CloseAfter(ts, i, 1, opener, closer) == Some(i + 1)
  {
  }

  lemma BindingNamesUnfold(ts: seq<Token>, m: nat, close: nat, bindings: set<Text>)
    requires SkipModifiers(ts, 0) == m < |ts| && !ts[m].kind.Identifier? && m + 1 < close <= |ts|
    requires ts[m].value == [LBRACE] || ts[m].value == [LBRACKET]
    requires CloseAfter(ts, m + 1, 1, ts[m].value, if ts[m].value == [LBRACE] then [RBRACE] else [RBRACKET]) == Some(close)
    ensures var entries := Split(ts[m + 1..close - 1], [COMMA]);
            (forall i :: 0 <= i < |entries| ==> |entries[i]| < |ts|) &&
            BindingNames(ts, bindings) == EntryNames(entries, ts[m].value == [LBRACE], bindings, |ts|)
  {
    hide Split, EntryNames, CloseAfter, SkipModifiers;
  }

  lemma DepthOfBalanced(ts: seq<Token>)
    requires Balanced(ts)
    ensures DepthOk(ts, [LBRACE], [RBRACE]) && DepthOk(ts, [LBRACKET], [RBRACKET])
    ensures Depth(ts, [LBRACE], [RBRACE]) == 0 && Depth(ts, [LBRACKET], [RBRACKET]) == 0
  {
  }

  lemma {:induction false} SkipsModifiers(modifiers: seq<Token>, rest: seq<Token>)
    requires forall i :: 0 <= i < |modifiers| ==> modifiers[i].value == [DOT] || Modifier(modifiers[i].value)
    requires rest != [] && rest[0].value != [DOT] && !Modifier(rest[0].value)
    ensures SkipModifiers(modifiers + rest, 0) == |modifiers|
  {
    SkipsFrom(modifiers + rest, |modifiers|, 0);
  }

  lemma {:induction false} SkipsFrom(ts: seq<Token>, m: nat, i: nat)
    requires i <= m < |ts| && ts[m].value != [DOT] && !Modifier(ts[m].value)
    requires forall k :: 0 <= k < m ==> ts[k].value == [DOT] || Modifier(ts[k].value)
    ensures SkipModifiers(ts, i) == m
    decreases m - i
  {
    hide Modifier;
    if i < m { SkipsFrom(ts, m, i + 1); }
  }

  lemma ShortIsNoModifier(v: Text)
    requires |v| == 1
    ensures !Modifier(v)
  {
  }

  /** The same, for a pattern met behind parameter modifiers and before any further tokens. */
  lemma {:induction false} ParameterIsReported(modifiers: seq<Token>, p: Pattern, trailing: seq<Token>, bindings: set<Text>)
    requires WellFormed(p)
    requires forall i :: 0 <= i < |modifiers| ==> modifiers[i].value == [DOT] || Modifier(modifiers[i].value)
    requires p.Name? && trailing != [] ==> !Modifier(p.t.value)
    ensures BindingNames(modifiers + Printed(p) + trailing, bindings) == Reported(Names(p)) * bindings
    decreases p, 0
  {
    hide Modifier;
    var ts := modifiers + Printed(p) + trailing;
    match p
    case Name(t) =>
      assert ts == modifiers + ([t] + trailing);
      if Modifier(t.value) {
        SkipsAll(ts, 0);
      } else {
        SkipsModifiers(modifiers, [t] + trailing);
        assert ts[|modifiers|] == t;
      }
    case Bracketed(open, items, close) =>
      BracketedNames(modifiers, p, trailing, bindings);
      EntriesOfItems(items, open.value == [LBRACE], bindings, |ts|);
  }

  lemma {:induction false} SkipsAll(ts: seq<Token>, i: nat)
    requires i <= |ts| && forall k :: 0 <= k < |ts| ==> ts[k].value == [DOT] || Modifier(ts[k].value)
    ensures SkipModifiers(ts, i) == |ts|
    decreases |ts| - i
  {
    hide Modifier;
    if i < |ts| { SkipsAll(ts, i + 1); }
  }

  /** The scan is exact iff no tracked binding is named like a modifier in the pattern. */
  lemma ExactIffNoModifierNames(p: Pattern, bindings: set<Text>)
    requires WellFormed(p)
    ensures BindingNames(Printed(p), bindings) == Names(p) * bindings <==>
              forall v :: v in Names(p) && v in bindings ==> !Modifier(v)
  {
    hide BindingNames, Modifier, WellFormed;
    PatternIsReported(p, bindings);
    var reported := Reported(Names(p)) * bindings;
    if reported == Names(p) * bindings {
      forall v | v in Names(p) && v in bindings ensures !Modifier(v) {
        assert v in Names(p) * bindings;
        assert v in reported;
      }
    }
  }

  const READONLY := Lit("readonly")

  /** The pattern `{readonly}`. */
  const SHORTHAND: Pattern := Bracketed(
    Token(Punctuation, [LBRACE], 1, 0, 1),
    Last(Element([], [], Name(Token(Identifier, READONLY, 1, 1, 9)), [])),
    Token(Punctuation, [RBRACE], 1, 9, 10))

  /** It binds `readonly`, and the scan reports nothing. */
  lemma ModifierNameIsMissed()
    ensures WellFormed(SHORTHAND) && Names(SHORTHAND) == {READONLY}
    ensures BindingNames(Printed(SHORTHAND), {READONLY}) == {}
  {
    var name := Token(Identifier, READONLY, 1, 1, 9);
    var e := Element([], [], Name(name), []);
    assert OrdinaryName(name) && WellFormed(Name(name));
    assert WellFormedElement(e, true);
    assert WellFormedItems(Last(e), true);
    assert ItemNames(Last(e)) == ElementNames(e) == Names(Name(name)) == {READONLY};
    PatternIsReported(SHORTHAND, {READONLY});
    assert Reported({READONLY}) == {};
  }
}
