/** The staged census of scripts/check_appearance_scaling.py: frozen counts per file and
    rule, what they absorb, the slack they may not keep, sealed directories, and the
    shrink-only rewrite of the stored census. */
module Census {
  import opened Text
  import opened Lists

  const BAR := 124

  datatype Violation = Violation(rule: Text, path: Text, lineno: int)

  type Counts = map<Text, int>

  function Get(counts: Counts, key: Text): int { if key in counts then counts[key] else 0 }

  function CensusKey(path: Text, rule: Text): Text { path + [BAR] + rule }

  function KeyOf(v: Violation): Text { CensusKey(v.path, v.rule) }

  /** Rule identifiers hold no bar and no slash. */
  predicate Plain(rule: Text) { BAR !in rule && SLASH !in rule }

  lemma KeysDiffer(p: Text, r: Text, q: Text, t: Text)
    requires BAR !in r && BAR !in t && CensusKey(p, r) == CensusKey(q, t)
    ensures p == q && r == t
  {
    var key := CensusKey(p, r);
    assert key[|p|] == BAR && key[|q|] == BAR;
    assert forall i :: |p| < i < |key| ==> key[i] in r;
    assert forall i :: |q| < i < |key| ==> key[i] in t;
    assert |p| == |q|;
    assert p == key[..|p|] && q == key[..|q|];
    assert r == key[|p| + 1..] && t == key[|q| + 1..];
  }

  // ------------------------------------------------------------------ counting

  predicate Counted(v: Violation, staged: set<Text>, key: Text) { v.rule in staged && KeyOf(v) == key }

  function Count(vs: seq<Violation>, staged: set<Text>, key: Text): nat {
    |Filter(vs, v => Counted(v, staged, key))|
  }

  lemma CountSnoc(vs: seq<Violation>, v: Violation, staged: set<Text>, key: Text)
    ensures Count(vs + [v], staged, key) == Count(vs, staged, key) + (if Counted(v, staged, key) then 1 else 0)
    ensures Count([], staged, key) == 0
  {
    assert (vs + [v])[..|vs|] == vs;
  }

  lemma CountPositive(vs: seq<Violation>, staged: set<Text>, key: Text)
    ensures Count(vs, staged, key) > 0 <==> exists v :: v in vs && Counted(v, staged, key)
  {
    FilterSingle(vs, v => Counted(v, staged, key));
    if v :| v in vs && Counted(v, staged, key) {
      var i :| 0 <= i < |vs| && vs[i] == v;
    }
  }

  function CensusOf(vs: seq<Violation>, staged: set<Text>): Counts {
    if vs == [] then map[]
    else
      var counts, v := CensusOf(vs[..|vs| - 1], staged), vs[|vs| - 1];
      if v.rule in staged then counts[KeyOf(v) := Get(counts, KeyOf(v)) + 1] else counts
  }

  /** The census counts every key that occurs, and no other. */
  lemma {:induction false} CensusCounts(vs: seq<Violation>, staged: set<Text>, key: Text)
    ensures Get(CensusOf(vs, staged), key) == Count(vs, staged, key)
    ensures key in CensusOf(vs, staged) <==> Count(vs, staged, key) > 0
  {
    hide Count, CensusKey;
    CountSnoc([], Violation([], [], 0), staged, key);
    if vs != [] {
      var init, v := vs[..|vs| - 1], vs[|vs| - 1];
      assert vs == init + [v];
      CensusCounts(init, staged, key);
      CountSnoc(init, v, staged, key);
    }
  }

  method StagedCensus(violations: seq<Violation>, staged: set<Text>) returns (counts: Counts)
    ensures counts == CensusOf(violations, staged)
  {
    counts := map[];
    for i := 0 to |violations|
      invariant counts == CensusOf(violations[..i], staged)
    {
      var v := violations[i];
      assert violations[..i + 1][..i] == violations[..i];
      if v.rule !in staged {
        continue;
      }
      counts := counts[KeyOf(v) := Get(counts, KeyOf(v)) + 1];
    }
    assert violations[..|violations|] == violations;
  }

  // ------------------------------------------------------------------ absorbing

  /** The order hits are absorbed in: path, rule, line. */
  predicate BySite(a: Violation, b: Violation) {
    TextLess(a.path, b.path) ||
    (a.path == b.path && (TextLess(a.rule, b.rule) || (a.rule == b.rule && a.lineno < b.lineno)))
  }

  lemma SiteOrderRanks()
    ensures Ranks(BySite)
  {
    forall a, b: Violation ensures BySite(a, b) ==> !BySite(b, a) {
      TextOrder(a.path, b.path, []);
      TextOrder(a.rule, b.rule, []);
    }
    forall a, b, c: Violation ensures !BySite(b, a) && !BySite(c, b) ==> !BySite(c, a) {
      TextOrder(a.path, b.path, c.path);
      TextOrder(b.path, c.path, a.path);
      TextOrder(c.path, a.path, b.path);
      TextOrder(a.rule, b.rule, c.rule);
      TextOrder(b.rule, c.rule, a.rule);
      TextOrder(c.rule, a.rule, b.rule);
    }
  }

  /** An allowance is left for the hit after those before it. */
  predicate Absorbs(before: seq<Violation>, v: Violation, staged: set<Text>, baseline: Counts) {
    v.rule in staged && Count(before, staged, KeyOf(v)) < Get(baseline, KeyOf(v))
  }

  function Kept(vs: seq<Violation>, staged: set<Text>, baseline: Counts): seq<Violation> {
    if vs == [] then []
    else
      var init, v := vs[..|vs| - 1], vs[|vs| - 1];
      Kept(init, staged, baseline) + (if Absorbs(init, v, staged, baseline) then [] else [v])
  }

  function Absorbed(vs: seq<Violation>, staged: set<Text>, baseline: Counts): seq<Violation> {
    if vs == [] then []
    else
      var init, v := vs[..|vs| - 1], vs[|vs| - 1];
      Absorbed(init, staged, baseline) + (if Absorbs(init, v, staged, baseline) then [v] else [])
  }

  /** What `apply_staged_baseline` reports, up to the wording. */
  function Reported(vs: seq<Violation>, staged: set<Text>, baseline: Counts): seq<Violation> {
    Kept(Sort(vs, BySite), staged, baseline)
  }

  /** How many of `hits` an allowance absorbs. */
  function Taken(hits: nat, allowance: int): nat {
    if allowance <= 0 then 0 else if hits < allowance then hits else allowance
  }

  lemma KeptSnoc(vs: seq<Violation>, v: Violation, staged: set<Text>, baseline: Counts)
    ensures Kept(vs + [v], staged, baseline) == Kept(vs, staged, baseline) + (if Absorbs(vs, v, staged, baseline) then [] else [v])
  {
    assert (vs + [v])[..|vs|] == vs;
  }

  method ApplyStagedBaseline(violations: seq<Violation>, staged: set<Text>, baseline: Counts) returns (reported: seq<Violation>)
    ensures reported == Reported(violations, staged, baseline)
  {
    hide Count, Kept, CensusKey, Sort;
    var remaining := baseline;
    reported := [];
    var ordered := Sort(violations, BySite);
    NothingKept(staged, baseline);
    for i := 0 to |ordered|
      invariant reported == Kept(ordered[..i], staged, baseline)
      invariant forall key :: Get(remaining, key) == Get(baseline, key) - Taken(Count(ordered[..i], staged, key), Get(baseline, key))
    {
      var v := ordered[i];
      assert ordered[..i + 1] == ordered[..i] + [v];
      KeptSnoc(ordered[..i], v, staged, baseline);
      forall key ensures Count(ordered[..i + 1], staged, key) == Count(ordered[..i], staged, key) + (if Counted(v, staged, key) then 1 else 0) {
        CountSnoc(ordered[..i], v, staged, key);
      }
      if v.rule !in staged {
        reported := reported + [v];
        continue;
      }
      var key := KeyOf(v);
      var allowance := Get(remaining, key);
      if allowance > 0 {
        remaining := remaining[key := allowance - 1];
        continue;
      }
      reported := reported + [v];
    }
    assert ordered[..|ordered|] == ordered;
  }

  lemma NothingKept(staged: set<Text>, baseline: Counts)
    ensures Kept([], staged, baseline) == [] && forall key :: Count([], staged, key) == 0
  {
  }

  /** Every hit is absorbed or reported, once. */
  lemma {:induction false} HitsConserved(vs: seq<Violation>, staged: set<Text>, baseline: Counts)
    ensures multiset(Kept(vs, staged, baseline)) + multiset(Absorbed(vs, staged, baseline)) == multiset(vs)
  {
    hide Absorbs;
    if vs != [] {
      var init, v := vs[..|vs| - 1], vs[|vs| - 1];
      assert vs == init + [v];
      HitsConserved(init, staged, baseline);
    }
  }

  lemma {:induction false} KeptCounts(vs: seq<Violation>, staged: set<Text>, baseline: Counts, key: Text)
    ensures Count(Absorbed(vs, staged, baseline), staged, key) == Taken(Count(vs, staged, key), Get(baseline, key))
    ensures Count(Kept(vs, staged, baseline), staged, key) == Count(vs, staged, key) - Taken(Count(vs, staged, key), Get(baseline, key))
  {
    hide Count, CensusKey;
    NothingKept(staged, baseline);
    if vs != [] {
      var init, v := vs[..|vs| - 1], vs[|vs| - 1];
      assert vs == init + [v];
      KeptCounts(init, staged, baseline, key);
      CountSnoc(init, v, staged, key);
      if Absorbs(init, v, staged, baseline) {
        assert Kept(vs, staged, baseline) == Kept(init, staged, baseline);
      } else {
        assert Absorbed(vs, staged, baseline) == Absorbed(init, staged, baseline);
      }
      CountSnoc(Kept(init, staged, baseline), v, staged, key);
      CountSnoc(Absorbed(init, staged, baseline), v, staged, key);
    }
  }

  /** Per key exactly min(count, allowance) hits are absorbed and the rest reported. */
  lemma AbsorbedExactly(vs: seq<Violation>, staged: set<Text>, baseline: Counts, key: Text)
    ensures Count(Absorbed(Sort(vs, BySite), staged, baseline), staged, key) == Taken(Count(vs, staged, key), Get(baseline, key))
    ensures Count(Reported(vs, staged, baseline), staged, key) == Count(vs, staged, key) - Taken(Count(vs, staged, key), Get(baseline, key))
    ensures multiset(Reported(vs, staged, baseline)) + multiset(Absorbed(Sort(vs, BySite), staged, baseline)) == multiset(vs)
  {
    hide Kept, Absorbed, Sort, Ranks, BySite;
    KeptCounts(Sort(vs, BySite), staged, baseline, key);
    SortKeepsCounts(vs, BySite, v => Counted(v, staged, key));
    HitsConserved(Sort(vs, BySite), staged, baseline);
    SiteOrderRanks();
    SortIsStable(vs, BySite, v => Counted(v, staged, key));
  }

  lemma {:induction false} UnstagedAreKept(vs: seq<Violation>, staged: set<Text>, baseline: Counts)
    ensures Filter(Kept(vs, staged, baseline), (v: Violation) => v.rule !in staged) == Filter(vs, (v: Violation) => v.rule !in staged)
  {
    hide Count;
    if vs != [] {
      var init, v := vs[..|vs| - 1], vs[|vs| - 1];
      assert vs == init + [v];
      UnstagedAreKept(init, staged, baseline);
      FilterConcat(Kept(init, staged, baseline), if Absorbs(init, v, staged, baseline) then [] else [v], (v: Violation) => v.rule !in staged);
      assert [v][..0] == [];
    }
  }

  lemma {:induction false} EarlierOfKey(vs: seq<Violation>, staged: set<Text>, baseline: Counts, a: Violation, r: Violation)
    requires Ascending(vs, BySite) && forall rule :: rule in staged ==> Plain(rule)
    requires a in Absorbed(vs, staged, baseline) && r in Kept(vs, staged, baseline)
    requires r.rule in staged && KeyOf(a) == KeyOf(r)
    ensures a.lineno <= r.lineno
  {
    hide Count, CensusKey, TextLess;
    var init, v := vs[..|vs| - 1], vs[|vs| - 1];
    assert vs == init + [v];
    AbsorbedAreStaged(vs, staged, baseline, a);
    if r in Kept(init, staged, baseline) {
      if a in Absorbed(init, staged, baseline) {
        EarlierOfKey(init, staged, baseline, a, r);
      } else {
        KeptCounts(init, staged, baseline, KeyOf(v));
        CountPositive(Kept(init, staged, baseline), staged, KeyOf(v));
        assert false;
      }
    } else {
      assert r == v && !Absorbs(init, v, staged, baseline);
      HitsConserved(init, staged, baseline);
      assert a in multiset(init);
      var i :| 0 <= i < |init| && init[i] == a;
      assert !BySite(vs[|init|], vs[i]);
      KeysDiffer(a.path, a.rule, r.path, r.rule);
    }
  }

  lemma {:induction false} AbsorbedAreStaged(vs: seq<Violation>, staged: set<Text>, baseline: Counts, a: Violation)
    requires a in Absorbed(vs, staged, baseline)
    ensures a.rule in staged
  {
    hide Count;
    if a in Absorbed(vs[..|vs| - 1], staged, baseline) { AbsorbedAreStaged(vs[..|vs| - 1], staged, baseline, a); }
  }

  /** Within a file and rule the earliest lines are the ones absorbed. */
  lemma EarliestAbsorbed(vs: seq<Violation>, staged: set<Text>, baseline: Counts, a: Violation, r: Violation)
    requires forall rule :: rule in staged ==> Plain(rule)
    requires a in Absorbed(Sort(vs, BySite), staged, baseline) && r in Reported(vs, staged, baseline)
    requires r.rule in staged && KeyOf(a) == KeyOf(r)
    ensures a.lineno <= r.lineno
  {
    hide Kept, Absorbed, Sort, Ascending, Ranks, BySite, Plain;
    SiteOrderRanks();
    SortIsStable(vs, BySite, v => false);
    EarlierOfKey(Sort(vs, BySite), staged, baseline, a, r);
  }

  // ------------------------------------------------------------------ slack

  /** The file of a census key: what `rpartition` finds before the last bar. */
  function Relative(key: Text): Text {
    if key == [] then [] else if key[|key| - 1] == BAR then key[..|key| - 1] else Relative(key[..|key| - 1])
  }

  lemma {:induction false} RelativeOfKey(path: Text, rule: Text)
    requires Plain(rule)
    ensures Relative(CensusKey(path, rule)) == path
  {
    var key := CensusKey(path, rule);
    if rule == [] {
      assert key[..|key| - 1] == path;
    } else {
      assert key[|key| - 1] == rule[|rule| - 1] && rule[|rule| - 1] in rule;
      assert key[..|key| - 1] == CensusKey(path, rule[..|rule| - 1]);
      RelativeOfKey(path, rule[..|rule| - 1]);
    }
  }

  predicate InScope(key: Text, scope: Option<set<Text>>) { scope.None? || Relative(key) in scope.value }

  /** The census allocates more to the key than the tree uses. */
  predicate IsSlack(vs: seq<Violation>, staged: set<Text>, baseline: Counts, scope: Option<set<Text>>, key: Text) {
    key in baseline && InScope(key, scope) && Count(vs, staged, key) < baseline[key]
  }

  /** The rule that slack is reported under. */
  const CENSUS_SLACK: Text := Lit("PROD-SCALE-34")

  function SlackViolation(key: Text): Violation { Violation(CENSUS_SLACK, Relative(key), 1) }

  /** One violation per key with slack, in the order of the keys. */
  method CensusSlack(violations: seq<Violation>, staged: set<Text>, baseline: Counts, scope: Option<set<Text>>)
    returns (reported: seq<Violation>, ghost keys: seq<Text>)
    ensures reported == Map(keys, SlackViolation)
    ensures StrictlyAscending(keys, TextLess)
    ensures forall key :: key in keys <==> IsSlack(violations, staged, baseline, scope, key)
  {
    hide Count, Relative, TextLess;
    TextsAreTotal();
    var actual := StagedCensus(violations, staged);
    var ordered := SortedSet(baseline.Keys, TextLess);
    reported, keys := [], [];
    for i := 0 to |ordered|
      invariant reported == Map(keys, SlackViolation)
      invariant StrictlyAscending(keys, TextLess)
      invariant forall key :: key in keys <==> key in ordered[..i] && IsSlack(violations, staged, baseline, scope, key)
    {
      var key := ordered[i];
      assert ordered[..i + 1] == ordered[..i] + [key];
      CensusCounts(violations, staged, key);
      if scope.Some? && Relative(key) !in scope.value {
        continue;
      }
      if Get(actual, key) >= baseline[key] {
        continue;
      }
      forall k | k in keys ensures TextLess(k, key) {
        var j :| 0 <= j < i && ordered[j] == k;
      }
      reported, keys := reported + [SlackViolation(key)], keys + [key];
    }
    assert ordered[..|ordered|] == ordered;
  }

  /** Every hit is staged, and every key is hit as often as it is frozen at. */
  ghost predicate Exact(vs: seq<Violation>, staged: set<Text>, baseline: Counts) {
    && (forall v :: v in vs ==> v.rule in staged)
    && (forall key :: Count(vs, staged, key) == if Get(baseline, key) < 0 then 0 else Get(baseline, key))
  }

  lemma NothingReportedIff(vs: seq<Violation>, staged: set<Text>, baseline: Counts)
    ensures Reported(vs, staged, baseline) == [] <==>
              (forall v :: v in vs ==> v.rule in staged) &&
              (forall key :: Count(vs, staged, key) <= if Get(baseline, key) < 0 then 0 else Get(baseline, key))
  {
    hide Count, Kept, Absorbed, Sort, CensusKey, Reported, BySite;
    var reported := Reported(vs, staged, baseline);
    forall key ensures Count(reported, staged, key) == Count(vs, staged, key) - Taken(Count(vs, staged, key), Get(baseline, key)) {
      AbsorbedExactly(vs, staged, baseline, key);
    }
    AbsorbedExactly(vs, staged, baseline, []);
    NothingKept(staged, baseline);
    if reported == [] {
      forall v | v in vs ensures v.rule in staged { UnstagedIsReported(vs, staged, baseline, v); }
    } else {
      var v := reported[0];
      assert v in multiset(reported);
      assert v in multiset(vs);
      if v.rule in staged {
        assert Counted(v, staged, KeyOf(v));
        CountPositive(reported, staged, KeyOf(v));
      }
    }
  }

  lemma UnstagedIsReported(vs: seq<Violation>, staged: set<Text>, baseline: Counts, v: Violation)
    requires v in vs
    ensures v.rule in staged || v in Reported(vs, staged, baseline)
  {
    hide Kept, Sort, Ranks, BySite;
    var p := (v: Violation) => v.rule !in staged;
    SiteOrderRanks();
    SortIsStable(vs, BySite, p);
    UnstagedAreKept(Sort(vs, BySite), staged, baseline);
    assert v in multiset(Sort(vs, BySite));
    FilterMembers(Sort(vs, BySite), p, v);
    FilterMembers(Reported(vs, staged, baseline), p, v);
  }

  /** Nothing is reported and no slack is left exactly when the census is exact. */
  lemma CleanIff(vs: seq<Violation>, staged: set<Text>, baseline: Counts)
    ensures (Reported(vs, staged, baseline) == [] && forall key :: !IsSlack(vs, staged, baseline, None, key)) <==> Exact(vs, staged, baseline)
  {
    hide Count, Reported, Relative;
    NothingReportedIff(vs, staged, baseline);
    if forall key :: !IsSlack(vs, staged, baseline, None, key) {
      assert forall key :: key in baseline ==> !IsSlack(vs, staged, baseline, None, key);
      assert forall key :: Count(vs, staged, key) >= Get(baseline, key);
    }
  }

  // ------------------------------------------------------------------ seals

  datatype Seal = Seal(path: Text, justification: Text)

  /** Prefixes are trimmed and end in a slash; a seal whose path or reason is blank is an error. */
  function SealedPrefixes(seals: seq<Seal>): (r: Option<seq<Text>>)
    ensures r.Some? ==> |r.value| == |seals|
    ensures r.Some? ==> forall i :: 0 <= i < |r.value| ==> r.value[i] != [] && r.value[i][|r.value[i]| - 1] == SLASH
  {
    if seals == [] then Some([])
    else
      var init, last := SealedPrefixes(seals[..|seals| - 1]), seals[|seals| - 1];
      var path := Strip(last.path, WhiteSpace);
      if init.None? || path == [] || Strip(last.justification, WhiteSpace) == [] then None
      else Some(init.value + [if path[|path| - 1] == SLASH then path else path + [SLASH]])
  }

  lemma {:induction false} RejectedFromThere(seals: seq<Seal>, i: nat)
    requires i <= |seals| && SealedPrefixes(seals[..i]).None?
    ensures SealedPrefixes(seals).None?
    decreases |seals| - i
  {
    if i < |seals| {
      assert seals[..i + 1][..i] == seals[..i];
      RejectedFromThere(seals, i + 1);
    } else {
      assert seals[..i] == seals;
    }
  }

  method ReadSeals(seals: seq<Seal>) returns (prefixes: Option<seq<Text>>)
    ensures prefixes == SealedPrefixes(seals)
  {
    hide Strip, WhiteSpace;
    var out: seq<Text> := [];
    for i := 0 to |seals|
      invariant SealedPrefixes(seals[..i]) == Some(out)
    {
      var path := Strip(seals[i].path, WhiteSpace);
      assert seals[..i + 1][..i] == seals[..i];
      if path == [] || Strip(seals[i].justification, WhiteSpace) == [] {
        RejectedFromThere(seals, i + 1);
        return None;
      }
      out := out + [if path[|path| - 1] == SLASH then path else path + [SLASH]];
    }
    assert seals[..|seals|] == seals;
    return Some(out);
  }

  predicate StartsIn(t: Text, prefixes: seq<Text>) {
    exists i :: 0 <= i < |prefixes| && prefixes[i] <= t
  }

  /** The staged hits inside sealed directories, whatever the census allows. */
  function SealedHits(vs: seq<Violation>, staged: set<Text>, prefixes: seq<Text>): seq<Violation> {
    Filter(vs, (v: Violation) => v.rule in staged && StartsIn(v.path, prefixes))
  }

  method SealedDirectoryViolations(violations: seq<Violation>, staged: set<Text>, prefixes: seq<Text>) returns (reported: seq<Violation>)
    ensures reported == SealedHits(violations, staged, prefixes)
  {
    reported := [];
    for i := 0 to |violations|
      invariant reported == SealedHits(violations[..i], staged, prefixes)
    {
      var v := violations[i];
      assert violations[..i + 1][..i] == violations[..i];
      if v.rule !in staged {
        continue;
      }
      var j, found := 0, false;
      ghost var before := reported;
      while j < |prefixes| && !found
        invariant j <= |prefixes|
        invariant reported == if found then before + [v] else before
        invariant found ==> StartsIn(v.path, prefixes)
        invariant !found ==> !StartsIn(v.path, prefixes[..j])
      {
        assert prefixes[..j + 1] == prefixes[..j] + [prefixes[j]];
        if prefixes[j] <= v.path {
          reported := reported + [v];
          found := true;
        }
        j := j + 1;
      }
      assert prefixes[..|prefixes|] == prefixes;
    }
    assert violations[..|violations|] == violations;
  }

  /** A census key starts in a sealed directory exactly when its path does. */
  lemma KeyStartsIff(path: Text, rule: Text, prefixes: seq<Text>)
    requires Plain(rule)
    requires forall i :: 0 <= i < |prefixes| ==> prefixes[i] != [] && prefixes[i][|prefixes[i]| - 1] == SLASH
    ensures StartsIn(CensusKey(path, rule), prefixes) <==> StartsIn(path, prefixes)
  {
    var key := CensusKey(path, rule);
    assert forall k :: |path| < k < |key| ==> key[k] in rule;
    assert forall k :: |path| <= k < |key| ==> key[k] != SLASH;
    forall i | 0 <= i < |prefixes| ensures prefixes[i] <= key <==> prefixes[i] <= path {
      var p := prefixes[i];
      if p <= key && |p| > |path| {
        assert false;
      }
      assert p <= key && |p| <= |path| ==> p == key[..|p|] && key[..|p|] == path[..|p|];
    }
  }

  // ------------------------------------------------------------------ the stored census

  /** Files a rule may grow in, and up to what count. */
  datatype Sanction = Sanction(rule: Text, files: seq<(Text, int)>)

  function FileCeilings(rule: Text, files: seq<(Text, int)>, ceilings: Counts): Counts {
    if files == [] then ceilings
    else FileCeilings(rule, files[..|files| - 1], ceilings)[CensusKey(files[|files| - 1].0, rule) := files[|files| - 1].1]
  }

  function Ceilings(sanctions: seq<Sanction>): Counts {
    if sanctions == [] then map[]
    else FileCeilings(sanctions[|sanctions| - 1].rule, sanctions[|sanctions| - 1].files, Ceilings(sanctions[..|sanctions| - 1]))
  }

  method SanctionedGrowthCeilings(sanctions: seq<Sanction>) returns (ceilings: Counts)
    ensures ceilings == Ceilings(sanctions)
  {
    ceilings := map[];
    for i := 0 to |sanctions|
      invariant ceilings == Ceilings(sanctions[..i])
    {
      assert sanctions[..i + 1][..i] == sanctions[..i];
      ghost var before := ceilings;
      var files := sanctions[i].files;
      for j := 0 to |files|
        invariant ceilings == FileCeilings(sanctions[i].rule, files[..j], before)
      {
        assert files[..j + 1][..j] == files[..j];
        ceilings := ceilings[CensusKey(files[j].0, sanctions[i].rule) := files[j].1];
      }
      assert files[..|files|] == files;
    }
    assert sanctions[..|sanctions|] == sanctions;
  }

  /** The j-th file of the i-th sanction is this path, under this rule. */
  predicate Listed(sanctions: seq<Sanction>, i: int, j: int, path: Text, rule: Text) {
    0 <= i < |sanctions| && 0 <= j < |sanctions[i].files| && sanctions[i].rule == rule && sanctions[i].files[j].0 == path
  }

  /** No later listing of the path under the rule. */
  ghost predicate LastListed(sanctions: seq<Sanction>, i: int, j: int, path: Text, rule: Text) {
    Listed(sanctions, i, j, path, rule) && forall k, l :: Listed(sanctions, k, l, path, rule) ==> k < i || (k == i && l <= j)
  }

  ghost predicate LastFile(files: seq<(Text, int)>, j: int, path: Text) {
    0 <= j < |files| && files[j].0 == path && forall l :: j < l < |files| ==> files[l].0 != path
  }

  ghost predicate HasFile(files: seq<(Text, int)>, path: Text) { exists j :: LastFile(files, j, path) }

  lemma {:induction false} FileCeilingsScoped(rule: Text, files: seq<(Text, int)>, ceilings: Counts, path: Text, r: Text)
    requires BAR !in rule && BAR !in r
    ensures CensusKey(path, r) in FileCeilings(rule, files, ceilings) <==>
              CensusKey(path, r) in ceilings || (r == rule && HasFile(files, path))
    ensures r == rule ==> forall j :: LastFile(files, j, path) ==> FileCeilings(rule, files, ceilings)[CensusKey(path, r)] == files[j].1
    ensures CensusKey(path, r) in ceilings && !(r == rule && HasFile(files, path)) ==>
              FileCeilings(rule, files, ceilings)[CensusKey(path, r)] == ceilings[CensusKey(path, r)]
  {
    if files != [] {
      var init, last := files[..|files| - 1], files[|files| - 1];
      FileCeilingsScoped(rule, init, ceilings, path, r);
      if CensusKey(path, r) == CensusKey(last.0, rule) { KeysDiffer(path, r, last.0, rule); }
      assert files == init + [last];
      LastFileOf(files, path);
    }
  }

  lemma LastFileOf(files: seq<(Text, int)>, path: Text)
    requires files != []
    ensures var init, last := files[..|files| - 1], files[|files| - 1];
            && (last.0 == path ==> forall j :: LastFile(files, j, path) <==> j == |files| - 1)
            && (last.0 != path ==> forall j :: LastFile(files, j, path) <==> LastFile(init, j, path))
            && (HasFile(files, path) <==> last.0 == path || HasFile(init, path))
  {
    var init, last := files[..|files| - 1], files[|files| - 1];
    assert forall l :: 0 <= l < |init| ==> init[l] == files[l];
    if last.0 == path {
      assert LastFile(files, |files| - 1, path);
    } else {
      forall j ensures LastFile(files, j, path) <==> LastFile(init, j, path) {}
      if HasFile(init, path) { var j :| LastFile(init, j, path); assert LastFile(files, j, path); }
    }
  }

  lemma {:induction false} SomeLastFile(files: seq<(Text, int)>, j: int, path: Text)
    requires 0 <= j < |files| && files[j].0 == path
    ensures HasFile(files, path)
    decreases |files| - j
  {
    if l :| j < l < |files| && files[l].0 == path { SomeLastFile(files, l, path); } else { assert LastFile(files, j, path); }
  }

  /** A sanction covers exactly the files it lists, for its own rule, at the number it lists
      last. */
  lemma {:induction false} CeilingsScoped(sanctions: seq<Sanction>, path: Text, rule: Text)
    requires BAR !in rule && forall i :: 0 <= i < |sanctions| ==> BAR !in sanctions[i].rule
    ensures CensusKey(path, rule) in Ceilings(sanctions) <==> exists i, j :: Listed(sanctions, i, j, path, rule)
    ensures forall i, j :: LastListed(sanctions, i, j, path, rule) ==> Ceilings(sanctions)[CensusKey(path, rule)] == sanctions[i].files[j].1
  {
    hide FileCeilings, CensusKey;
    if sanctions != [] {
      var init, last := sanctions[..|sanctions| - 1], sanctions[|sanctions| - 1];
      CeilingsScoped(init, path, rule);
      FileCeilingsScoped(last.rule, last.files, Ceilings(init), path, rule);
      ListedIn(sanctions, path, rule);
      forall i, j | LastListed(sanctions, i, j, path, rule)
        ensures Ceilings(sanctions)[CensusKey(path, rule)] == sanctions[i].files[j].1 {
        if i == |init| {
          LastListedHere(sanctions, j, path, rule);
        } else {
          LastListedBefore(sanctions, i, j, path, rule);
        }
      }
    }
  }

  lemma ListedIn(sanctions: seq<Sanction>, path: Text, rule: Text)
    requires sanctions != []
    ensures var init, last := sanctions[..|sanctions| - 1], sanctions[|sanctions| - 1];
            (exists i, j :: Listed(sanctions, i, j, path, rule)) <==>
            (exists i, j :: Listed(init, i, j, path, rule)) || (last.rule == rule && HasFile(last.files, path))
  {
    var init, last := sanctions[..|sanctions| - 1], sanctions[|sanctions| - 1];
    if i, j :| Listed(sanctions, i, j, path, rule) {
      if i < |init| { assert Listed(init, i, j, path, rule); } else { SomeLastFile(last.files, j, path); }
    }
    if i, j :| Listed(init, i, j, path, rule) { assert Listed(sanctions, i, j, path, rule); }
    if last.rule == rule && HasFile(last.files, path) {
      var j :| LastFile(last.files, j, path);
      assert Listed(sanctions, |init|, j, path, rule);
    }
  }

  lemma LastListedHere(sanctions: seq<Sanction>, j: int, path: Text, rule: Text)
    requires sanctions != [] && LastListed(sanctions, |sanctions| - 1, j, path, rule)
    ensures LastFile(sanctions[|sanctions| - 1].files, j, path)
  {
    var last := |sanctions| - 1;
    forall l | j < l < |sanctions[last].files| ensures sanctions[last].files[l].0 != path {
      assert !Listed(sanctions, last, l, path, rule);
    }
  }

  lemma LastListedBefore(sanctions: seq<Sanction>, i: int, j: int, path: Text, rule: Text)
    requires sanctions != [] && LastListed(sanctions, i, j, path, rule) && i < |sanctions| - 1
    ensures var init, last := sanctions[..|sanctions| - 1], sanctions[|sanctions| - 1];
            LastListed(init, i, j, path, rule) && !(last.rule == rule && HasFile(last.files, path))
  {
    var init, last := sanctions[..|sanctions| - 1], sanctions[|sanctions| - 1];
    forall k, l | Listed(init, k, l, path, rule) ensures k < i || (k == i && l <= j) { assert Listed(sanctions, k, l, path, rule); }
    assert init[i] == sanctions[i];
    forall l | last.rule == rule ensures !LastFile(last.files, l, path) { assert !Listed(sanctions, |init|, l, path, rule); }
  }

  function Larger(a: int, b: int): int { if a < b then b else a }

  /** The keys whose count rose past everything allowed. */
  function UnsanctionedGrowth(previous: Counts, current: Counts, ceilings: Counts): set<Text> {
    set key | key in current && current[key] > Larger(Get(previous, key), Get(ceilings, key))
  }

  function Resealed(current: Counts, prefixes: seq<Text>): set<Text> {
    set key | key in current && StartsIn(key, prefixes)
  }

  datatype Outcome = Written | BadSeal | SealRefusal(keys: set<Text>) | GrowthRefusal(keys: set<Text>)

  /** What a rewrite of the stored census answers. */
  function Decision(previous: Counts, seals: seq<Seal>, sanctions: seq<Sanction>, current: Counts): Outcome {
    var prefixes := SealedPrefixes(seals);
    if prefixes.None? then BadSeal
    else
      var resealed, growth := Resealed(current, prefixes.value), UnsanctionedGrowth(previous, current, Ceilings(sanctions));
      if resealed != {} then SealRefusal(resealed)
      else if growth != {} && previous != map[] then GrowthRefusal(growth)
      else Written
  }

  /** The census after a rewrite: a refusal changes nothing. */
  function Next(previous: Counts, seals: seq<Seal>, sanctions: seq<Sanction>, current: Counts): Counts {
    if Decision(previous, seals, sanctions, current).Written? then current else previous
  }

  /** The baseline file. */
  class BaselineFile {
    var census: Counts
    var seals: seq<Seal>
    var sanctions: seq<Sanction>

    constructor (census: Counts, seals: seq<Seal>, sanctions: seq<Sanction>)
      ensures this.census == census && this.seals == seals && this.sanctions == sanctions
    {
      this.census, this.seals, this.sanctions := census, seals, sanctions;
    }

    method WriteBaseline(raw: seq<Violation>, staged: set<Text>) returns (outcome: Outcome)
      modifies this`census
      ensures outcome == Decision(old(census), seals, sanctions, CensusOf(raw, staged))
      ensures census == Next(old(census), seals, sanctions, CensusOf(raw, staged))
    {
      var current := StagedCensus(raw, staged);
      var prefixes := ReadSeals(seals);
      if prefixes.None? {
        return BadSeal;
      }
      var resealed := Resealed(current, prefixes.value);
      if resealed != {} {
        return SealRefusal(resealed);
      }
      var ceilings := SanctionedGrowthCeilings(sanctions);
      var growth := UnsanctionedGrowth(census, current, ceilings);
      if growth != {} && census != map[] {
        return GrowthRefusal(growth);
      }
      census := current;
      return Written;
    }
  }

  /** A rewrite is accepted exactly when no key is sealed and none grows past its ceiling,
      or nothing was stored. */
  lemma WrittenIff(previous: Counts, seals: seq<Seal>, sanctions: seq<Sanction>, current: Counts)
    ensures Decision(previous, seals, sanctions, current).Written? <==>
              SealedPrefixes(seals).Some? &&
              (forall key :: key in current ==> !StartsIn(key, SealedPrefixes(seals).value)) &&
              (previous == map[] || forall key :: key in current ==> current[key] <= Larger(Get(previous, key), Get(Ceilings(sanctions), key)))
  {
    hide SealedPrefixes, Ceilings, StartsIn;
    var growth := UnsanctionedGrowth(previous, current, Ceilings(sanctions));
    assert forall key :: key in growth <==> key in current && current[key] > Larger(Get(previous, key), Get(Ceilings(sanctions), key));
    if SealedPrefixes(seals).Some? {
      var resealed := Resealed(current, SealedPrefixes(seals).value);
      assert forall key :: key in resealed <==> key in current && StartsIn(key, SealedPrefixes(seals).value);
    }
  }

  /** The stored census after a run of rewrites of changing trees. */
  ghost function Run(initial: Counts, seals: seq<Seal>, sanctions: seq<Sanction>, staged: set<Text>, trees: seq<seq<Violation>>): Counts {
    if trees == [] then initial
    else Next(Run(initial, seals, sanctions, staged, trees[..|trees| - 1]), seals, sanctions, CensusOf(trees[|trees| - 1], staged))
  }

  /** The census was not empty before any of the rewrites. */
  ghost predicate NeverEmpty(initial: Counts, seals: seq<Seal>, sanctions: seq<Sanction>, staged: set<Text>, trees: seq<seq<Violation>>) {
    forall i :: 0 <= i < |trees| ==> Run(initial, seals, sanctions, staged, trees[..i]) != map[]
  }

  /** Over a whole run every stored count stays at or below where it began or its ceiling. */
  lemma {:induction false} CensusOnlyShrinks(initial: Counts, seals: seq<Seal>, sanctions: seq<Sanction>, staged: set<Text>,
                                            trees: seq<seq<Violation>>, key: Text)
    requires NeverEmpty(initial, seals, sanctions, staged, trees)
    ensures var final := Run(initial, seals, sanctions, staged, trees);
            key in final ==> final[key] <= Larger(Get(initial, key), Get(Ceilings(sanctions), key))
  {
    hide Ceilings, SealedPrefixes, Decision, CensusOf, StartsIn;
    if trees != [] {
      var init, last := trees[..|trees| - 1], trees[|trees| - 1];
      assert forall i :: 0 <= i < |init| ==> init[..i] == trees[..i];
      CensusOnlyShrinks(initial, seals, sanctions, staged, init, key);
      var previous := Run(initial, seals, sanctions, staged, init);
      assert previous != map[];
      WrittenIff(previous, seals, sanctions, CensusOf(last, staged));
      CensusCounts(last, staged, key);
    }
  }

  /** No path in a sealed directory is ever stored. */
  lemma {:induction false} SealsHold(initial: Counts, seals: seq<Seal>, sanctions: seq<Sanction>, staged: set<Text>,
                                    trees: seq<seq<Violation>>, prefixes: seq<Text>, path: Text, rule: Text)
    requires SealedPrefixes(seals) == Some(prefixes) && Plain(rule) && StartsIn(path, prefixes)
    requires CensusKey(path, rule) !in initial
    ensures CensusKey(path, rule) !in Run(initial, seals, sanctions, staged, trees)
  {
    hide Ceilings, SealedPrefixes, Decision, CensusOf, StartsIn, CensusKey;
    if trees != [] {
      var init, last := trees[..|trees| - 1], trees[|trees| - 1];
      SealsHold(initial, seals, sanctions, staged, init, prefixes, path, rule);
      WrittenIff(Run(initial, seals, sanctions, staged, init), seals, sanctions, CensusOf(last, staged));
      KeyStartsIff(path, rule, prefixes);
    }
  }

  /** Once the census is empty anything unsealed is stored: the ratchet restarts. */
  lemma EmptyCensusRestarts(v: Violation, staged: set<Text>)
    requires v.rule in staged
    ensures var initial: Counts := map[KeyOf(v) := 1];
            Get(Run(initial, [], [], staged, [[], [v, v]]), KeyOf(v)) == 2
  {
    var initial: Counts := map[KeyOf(v) := 1];
    var trees: seq<seq<Violation>> := [[], [v, v]];
    assert trees[..1] == [[]] && trees[..1][..0] == [];
    assert CensusOf([], staged) == map[];
    WrittenIff(initial, [], [], map[]);
    assert Run(initial, [], [], staged, [[]]) == map[];
    assert [v, v][..1] == [v] && [v][..0] == [];
    assert CensusOf([v], staged) == map[KeyOf(v) := 1];
    assert CensusOf([v, v], staged) == map[KeyOf(v) := 2];
    WrittenIff(map[], [], [], map[KeyOf(v) := 2]);
  }

  /** An accepted rewrite leaves a tree of staged hits clean. */
  lemma WrittenIsClean(previous: Counts, seals: seq<Seal>, sanctions: seq<Sanction>, vs: seq<Violation>, staged: set<Text>)
    requires Decision(previous, seals, sanctions, CensusOf(vs, staged)).Written?
    requires forall v :: v in vs ==> v.rule in staged
    ensures var stored := Next(previous, seals, sanctions, CensusOf(vs, staged));
            Reported(vs, staged, stored) == [] && forall key :: !IsSlack(vs, staged, stored, None, key)
  {
    hide Decision, CensusOf, Count, Reported, IsSlack;
    var stored := CensusOf(vs, staged);
    forall key ensures Get(stored, key) == Count(vs, staged, key) { CensusCounts(vs, staged, key); }
    CleanIff(vs, staged, stored);
  }
}
