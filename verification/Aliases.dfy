/** The work list of `expanded_store_value_aliases` (scripts/check_frontend_boundaries.py).
    Which aliases one source has inside its scope is an arbitrary analysis; where the scope
    of each begins and ends is computed as in `simple_store_value_aliases`. */
module Aliases {
  import opened Text
  import opened Tokens

  datatype Binding = Binding(name: Text, start: int, end: int, namespace: bool, tracked: Option<int>)

  /** The slice of the text one call of `simple_store_value_aliases` sees. */
  datatype Segment = Segment(start: int, end: int, name: Text, namespace: bool, tracked: Option<int>)

  type Derivation = Segment -> set<Binding>

  /** Aliases start after the segment's first character and end inside it. */
  ghost predicate Scoped(derive: Derivation) {
    forall s: Segment, d: Binding :: d in derive(s) ==> 0 < d.start < d.end <= s.end - s.start
  }

  // ------------------------------------------------------------------ the scope of one alias

  /** What `_declaration_scope_end` answers: an end of some token, or the end of the text. */
  datatype Place = StartOf(i: nat) | EndOf(i: nat) | TextEnd

  /** An alias declaration: the index behind its receiver, and where its scope ends. */
  datatype Declaration = Declaration(name: Text, receiverEnd: nat, scopeEnd: Place, namespace: bool)

  /** The tokens of a segment, and the alias declarations found in them. */
  datatype Analysis = Analysis(tokens: seq<Token>, found: set<Declaration>)

  /** A receiver is read before its alias begins, and places are places of tokens. */
  predicate Plausible(ts: seq<Token>, d: Declaration) {
    ts != [] && d.receiverEnd > 0 && (d.scopeEnd.StartOf? || d.scopeEnd.EndOf? ==> d.scopeEnd.i < |ts|)
  }

  function Continuations(): set<Text> {
    {[DOT], [63], [91], [40], [BACKTICK], [58], [43], [45], [STAR], [SLASH], [37], [38], [124], [94], [LESS], [GREATER], [61],
     Lit("as"), Lit("satisfies"), Lit("instanceof"), Lit("in")}
  }

  /** `_alias_range_start`. */
  function AliasRangeStart(ts: seq<Token>, receiverEnd: nat): Option<int>
    requires ts != [] && receiverEnd > 0
  {
    if receiverEnd >= |ts| then Some(ts[|ts| - 1].end)
    else
      var token, previous := ts[receiverEnd], ts[receiverEnd - 1];
      if token.value == [44] || token.value == [59] then Some(token.end)
      else if token.value == [RBRACE] || (token.lineno > previous.lineno && token.value !in Continuations()) then Some(token.start)
      else None
  }

  function PlaceAt(length: int, ts: seq<Token>, p: Place): int
    requires p.StartOf? || p.EndOf? ==> p.i < |ts|
  {
    match p
    case StartOf(i) => ts[i].start
    case EndOf(i) => ts[i].end
    case TextEnd => length
  }

  /** The binding an alias declaration makes, if its scope is not empty. */
  function AliasOf(length: int, ts: seq<Token>, d: Declaration): Option<Binding> {
    if !Plausible(ts, d) then None
    else
      var start, end := AliasRangeStart(ts, d.receiverEnd), PlaceAt(length, ts, d.scopeEnd);
      if start.None? || start.value >= end then None else Some(Binding(d.name, start.value, end, d.namespace, None))
  }

  /** `simple_store_value_aliases`, given what is declared in each segment. */
  function SimpleAliases(analyse: Segment -> Analysis): Derivation {
    s => set d | d in analyse(s).found && AliasOf(s.end - s.start, analyse(s).tokens, d).Some? ::
           AliasOf(s.end - s.start, analyse(s).tokens, d).value
  }

  /** With tokens as the lexer emits them, every alias starts behind the first character of
      its segment and ends inside the segment. */
  lemma SimpleAliasesAreScoped(analyse: Segment -> Analysis)
    requires forall s :: Nested(analyse(s).tokens) && Tokens.Within(analyse(s).tokens, 0, s.end - s.start)
    ensures Scoped(SimpleAliases(analyse))
  {
    hide Continuations;
    forall s: Segment, b: Binding | b in SimpleAliases(analyse)(s) ensures 0 < b.start < b.end <= s.end - s.start {
      var d :| d in analyse(s).found && AliasOf(s.end - s.start, analyse(s).tokens, d) == Some(b);
      AliasIsScoped(s.end - s.start, analyse(s).tokens, d);
    }
  }

  lemma AliasIsScoped(length: int, ts: seq<Token>, d: Declaration)
    requires Nested(ts) && Tokens.Within(ts, 0, length) && AliasOf(length, ts, d).Some?
    ensures var b := AliasOf(length, ts, d).value; 0 < b.start < b.end <= length
  {
    hide Continuations;
    if d.receiverEnd < |ts| { assert Follows(ts[0], ts[d.receiverEnd]); }
  }

  function Clamp(x: int, lo: int, hi: int): int {
    var y := if x < hi then x else hi; if lo < y then y else lo
  }

  function SegmentOf(length: nat, b: Binding): Segment {
    var start := Clamp(b.start, 0, length);
    var end := Clamp(b.end, start, length);
    Segment(start, end, b.name, b.namespace,
            if b.tracked.Some? && start <= b.tracked.value < end then Some(b.tracked.value - start) else None)
  }

  function Shift(s: Segment, d: Binding): Binding {
    Binding(d.name, s.start + d.start, if s.end < s.start + d.end then s.end else s.start + d.end, d.namespace, None)
  }

  /** What one binding derives, in positions of the whole text. */
  function Derived(length: nat, derive: Derivation, b: Binding): set<Binding> {
    var s := SegmentOf(length, b);
    set d | d in derive(s) :: Shift(s, d)
  }

  /** A derived scope lies inside its source's scope and starts strictly later. */
  lemma DerivedIsInside(length: nat, derive: Derivation, b: Binding, d: Binding)
    requires Scoped(derive) && d in Derived(length, derive, b)
    ensures b.start < d.start < d.end <= b.end && 0 < d.start && d.end <= length
  {
    var s := SegmentOf(length, b);
    var local :| local in derive(s) && d == Shift(s, local);
  }

  // ------------------------------------------------------------------ reachability

  ghost predicate Chain(length: nat, derive: Derivation, seeds: set<Binding>, path: seq<Binding>) {
    && path != [] && path[0] in seeds
    && forall i :: 0 <= i < |path| - 1 ==> path[i + 1] in Derived(length, derive, path[i])
  }

  /** `b` is a seed or comes from one by repeated derivation. */
  ghost predicate Reachable(length: nat, derive: Derivation, seeds: set<Binding>, b: Binding) {
    exists path :: Chain(length, derive, seeds, path) && path[|path| - 1] == b
  }

  lemma ReachableSeed(length: nat, derive: Derivation, seeds: set<Binding>, b: Binding)
    requires b in seeds
    ensures Reachable(length, derive, seeds, b)
  {
    assert Chain(length, derive, seeds, [b]);
  }

  lemma ReachableStep(length: nat, derive: Derivation, seeds: set<Binding>, b: Binding, d: Binding)
    requires Reachable(length, derive, seeds, b) && d in Derived(length, derive, b)
    ensures Reachable(length, derive, seeds, d)
  {
    hide Derived;
    var path :| Chain(length, derive, seeds, path) && path[|path| - 1] == b;
    assert Chain(length, derive, seeds, path + [d]);
    assert (path + [d])[|path + [d]| - 1] == d;
  }

  /** A set that holds the seeds and is closed under derivation holds all that is reachable. */
  lemma {:induction false} ClosedHoldsChain(length: nat, derive: Derivation, seeds: set<Binding>, all: set<Binding>, path: seq<Binding>)
    requires seeds <= all && forall b :: b in all ==> Derived(length, derive, b) <= all
    requires Chain(length, derive, seeds, path)
    ensures path[|path| - 1] in all
    decreases |path|
  {
    hide Derived;
    if |path| > 1 {
      ClosedHoldsChain(length, derive, seeds, all, path[..|path| - 1]);
      assert path[(|path| - 2) + 1] in Derived(length, derive, path[|path| - 2]);
    }
  }

  // ------------------------------------------------------------------ a finite universe

  function DerivedFrom(length: nat, derive: Derivation, bs: set<Binding>): set<Binding> {
    set b, d | b in bs && d in Derived(length, derive, b) :: d
  }

  /** Everything reachable in at most `steps` derivations. */
  function Within(length: nat, derive: Derivation, bs: set<Binding>, steps: nat): set<Binding>
    decreases steps
  {
    if steps == 0 then bs else bs + Within(length, derive, DerivedFrom(length, derive, bs), steps - 1)
  }

  lemma {:induction false} ChainIsWithin(length: nat, derive: Derivation, bs: set<Binding>, path: seq<Binding>, steps: nat)
    requires Chain(length, derive, bs, path) && |path| <= steps + 1
    ensures path[|path| - 1] in Within(length, derive, bs, steps)
    decreases steps
  {
    hide Derived;
    if |path| > 1 {
      var next := DerivedFrom(length, derive, bs);
      assert path[0 + 1] in Derived(length, derive, path[0]);
      assert path[1..][0] in next;
      forall i | 0 <= i < |path[1..]| - 1 ensures path[1..][i + 1] in Derived(length, derive, path[1..][i]) {
        assert path[(i + 1) + 1] in Derived(length, derive, path[i + 1]);
      }
      ChainIsWithin(length, derive, next, path[1..], steps - 1);
    }
  }

  lemma {:induction false} ChainStartsGrow(length: nat, derive: Derivation, seeds: set<Binding>, path: seq<Binding>, i: nat)
    requires Scoped(derive) && Chain(length, derive, seeds, path) && 0 < i < |path|
    ensures i <= path[i].start < path[i].end <= length
    decreases i
  {
    hide Derived;
    assert path[(i - 1) + 1] in Derived(length, derive, path[i - 1]);
    DerivedIsInside(length, derive, path[i - 1], path[i]);
    if i > 1 { ChainStartsGrow(length, derive, seeds, path, i - 1); }
  }

  lemma ReachableIsWithin(length: nat, derive: Derivation, seeds: set<Binding>, b: Binding)
    requires Scoped(derive) && Reachable(length, derive, seeds, b)
    ensures b in Within(length, derive, seeds, length)
  {
    hide Derived;
    var path :| Chain(length, derive, seeds, path) && path[|path| - 1] == b;
    if |path| > 1 { ChainStartsGrow(length, derive, seeds, path, |path| - 1); }
    ChainIsWithin(length, derive, seeds, path, length);
  }

  // ------------------------------------------------------------------ the work list

  method ListOf(s: set<Binding>) returns (list: seq<Binding>)
    ensures forall b :: b in list <==> b in s
  {
    list := [];
    var rest := s;
    while rest != {}
      invariant rest <= s && forall b :: b in list <==> b in s - rest
      decreases |rest|
    {
      var b :| b in rest;
      list := list + [b];
      rest := rest - {b};
    }
  }

  /** Processed bindings have all their derivations recorded. */
  ghost predicate Closed(length: nat, derive: Derivation, seeds: set<Binding>, aliases: set<Binding>, queue: seq<Binding>) {
    && (forall b :: b in queue ==> b in seeds + aliases)
    && (forall b :: b in seeds + aliases ==> b in queue || Derived(length, derive, b) <= seeds + aliases)
  }

  ghost predicate AllReachable(length: nat, derive: Derivation, seeds: set<Binding>, aliases: set<Binding>) {
    forall b :: b in aliases ==> b !in seeds && Reachable(length, derive, seeds, b)
  }

  /** The aliases one source adds: each goes to the result and to the queue. */
  method RecordDerived(length: nat, seeds: set<Binding>, derive: Derivation, source: Binding, known: set<Binding>, rest: seq<Binding>)
    returns (aliases: set<Binding>, queue: seq<Binding>)
    requires Scoped(derive) && Reachable(length, derive, seeds, source) && AllReachable(length, derive, seeds, known)
    requires known <= Within(length, derive, seeds, length)
    requires forall b :: b in rest ==> b in seeds + known
    ensures AllReachable(length, derive, seeds, aliases) && known <= aliases <= Within(length, derive, seeds, length)
    ensures Derived(length, derive, source) <= seeds + aliases
    ensures aliases == known ==> queue == rest
    ensures forall b :: b in rest ==> b in queue
    ensures forall b :: b in queue ==> b in seeds + aliases
    ensures forall b :: b in aliases && b !in known ==> b in queue
  {
    hide Reachable, Derived, Within;
    aliases, queue := known, rest;
    var todo := Derived(length, derive, source);
    while todo != {}
      invariant todo <= Derived(length, derive, source) <= seeds + aliases + todo
      invariant AllReachable(length, derive, seeds, aliases) && known <= aliases <= Within(length, derive, seeds, length)
      invariant aliases == known ==> queue == rest
      invariant forall b :: b in rest ==> b in queue
      invariant forall b :: b in queue ==> b in seeds + aliases
      invariant forall b :: b in aliases && b !in known ==> b in queue
      decreases |todo|
    {
      var absolute :| absolute in todo;
      todo := todo - {absolute};
      if absolute in seeds || absolute in aliases { continue; }
      ReachableStep(length, derive, seeds, source, absolute);
      ReachableIsWithin(length, derive, seeds, absolute);
      aliases := aliases + {absolute};
      queue := queue + [absolute];
    }
  }

  /** The run stops, and the result is the least closure of the seeds minus the seeds; the
      order in which sources and their aliases are taken does not matter. */
  method ExpandedStoreValueAliases(length: nat, seeds: set<Binding>, derive: Derivation) returns (aliases: set<Binding>)
    requires Scoped(derive)
    ensures forall b :: b in aliases <==> Reachable(length, derive, seeds, b) && b !in seeds
  {
    hide Reachable, Derived, Within, Closed, AllReachable;
    aliases := {};
    var queue := ListOf(seeds);
    ghost var universe := Within(length, derive, seeds, length);
    AtStart(length, derive, seeds, queue);
    while queue != []
      invariant AllReachable(length, derive, seeds, aliases) && aliases <= universe
      invariant Closed(length, derive, seeds, aliases, queue)
      decreases |universe - aliases|, |queue|
    {
      var source := queue[|queue| - 1];
      ghost var before, known := queue, aliases;
      QueueIsReachable(length, derive, seeds, aliases, queue);
      queue := queue[..|queue| - 1];
      ghost var rest := queue;
      aliases, queue := RecordDerived(length, seeds, derive, source, aliases, queue);
      StillClosed(length, derive, seeds, known, aliases, before, rest, queue);
      if aliases != known { Fewer(universe, known, aliases); }
    }
    EveryReachable(length, derive, seeds, aliases);
  }

  lemma AtStart(length: nat, derive: Derivation, seeds: set<Binding>, queue: seq<Binding>)
    requires forall b :: b in queue <==> b in seeds
    ensures AllReachable(length, derive, seeds, {}) && Closed(length, derive, seeds, {}, queue)
  {
  }

  lemma QueueIsReachable(length: nat, derive: Derivation, seeds: set<Binding>, aliases: set<Binding>, queue: seq<Binding>)
    requires AllReachable(length, derive, seeds, aliases) && Closed(length, derive, seeds, aliases, queue) && queue != []
    ensures Reachable(length, derive, seeds, queue[|queue| - 1])
    ensures forall b :: b in queue[..|queue| - 1] ==> b in seeds + aliases
  {
    hide Reachable, Derived;
    var source := queue[|queue| - 1];
    assert source in queue;
    if source in seeds { ReachableSeed(length, derive, seeds, source); }
  }

  lemma Fewer(universe: set<Binding>, known: set<Binding>, aliases: set<Binding>)
    requires known <= aliases <= universe && aliases != known
    ensures |universe - aliases| < |universe - known|
  {
    var b :| b in aliases && b !in known;
    SubsetSize(universe - aliases, universe - known - {b});
  }

  lemma {:induction false} SubsetSize(a: set<Binding>, b: set<Binding>)
    requires a <= b
    ensures |a| <= |b|
    decreases |a|
  {
    if a != {} {
      var x :| x in a;
      SubsetSize(a - {x}, b - {x});
    }
  }

  lemma StillClosed(length: nat, derive: Derivation, seeds: set<Binding>, known: set<Binding>, aliases: set<Binding>,
                    before: seq<Binding>, rest: seq<Binding>, queue: seq<Binding>)
    requires before != [] && rest == before[..|before| - 1] && Closed(length, derive, seeds, known, before)
    requires known <= aliases && Derived(length, derive, before[|before| - 1]) <= seeds + aliases
    requires forall b :: b in rest ==> b in queue
    requires forall b :: b in queue ==> b in seeds + aliases
    requires forall b :: b in aliases && b !in known ==> b in queue
    ensures Closed(length, derive, seeds, aliases, queue)
  {
    hide Derived;
    forall b | b in seeds + aliases ensures b in queue || Derived(length, derive, b) <= seeds + aliases {
      if b in seeds + known && b in before && b != before[|before| - 1] {
        var k :| 0 <= k < |before| && before[k] == b;
        assert rest[k] == b;
      }
    }
  }

  lemma EveryReachable(length: nat, derive: Derivation, seeds: set<Binding>, aliases: set<Binding>)
    requires AllReachable(length, derive, seeds, aliases) && Closed(length, derive, seeds, aliases, [])
    ensures forall b :: b in aliases <==> Reachable(length, derive, seeds, b) && b !in seeds
  {
    hide Derived;
    forall b | Reachable(length, derive, seeds, b) && b !in seeds ensures b in aliases {
      var path :| Chain(length, derive, seeds, path) && path[|path| - 1] == b;
      ClosedHoldsChain(length, derive, seeds, seeds + aliases, path);
    }
  }
}
