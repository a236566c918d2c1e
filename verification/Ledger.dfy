/** The grandfathered-exception ledger of scripts/check_anyharness_boundaries.py:
    fingerprints that survive reformatting, occurrence ordinals for repeated fingerprints,
    and the comparison of observed sites with the ledger. */
module Ledger {
  import opened Text
  import opened Lists

  datatype Violation = Violation(rule: Text, path: Text, lineno: int, site: Text, detail: Text)

  /** Where a violation is booked: its rule, path and site. */
  datatype Key = Key(rule: Text, path: Text, site: Text)

  function KeyOf(v: Violation): Key { Key(v.rule, v.path, v.site) }

  // ------------------------------------------------------------------ orders

  predicate ByLine(a: Violation, b: Violation) { a.lineno < b.lineno }

  /** The report order: path, line, rule. */
  predicate ByReport(a: Violation, b: Violation) {
    TextLess(a.path, b.path) ||
    (a.path == b.path && (a.lineno < b.lineno || (a.lineno == b.lineno && TextLess(a.rule, b.rule))))
  }

  lemma ReportOrderRanks()
    ensures Ranks(ByReport) && Ranks(ByLine)
  {
    forall a, b: Violation ensures ByReport(a, b) ==> !ByReport(b, a) {
      TextOrder(a.path, b.path, []);
      TextOrder(a.rule, b.rule, []);
    }
    forall a, b, c: Violation ensures !ByReport(b, a) && !ByReport(c, b) ==> !ByReport(c, a) {
      TextOrder(a.path, b.path, c.path);
      TextOrder(b.path, c.path, a.path);
      TextOrder(c.path, a.path, b.path);
      TextOrder(a.rule, b.rule, c.rule);
      TextOrder(b.rule, c.rule, a.rule);
      TextOrder(c.rule, a.rule, b.rule);
    }
  }

  // ------------------------------------------------------------------ ordinals

  /** The violations booked under one key, in order. */
  function Group(vs: seq<Violation>, q: Key): (r: seq<Violation>)
  {
    Filter(vs, v => KeyOf(v) == q)
  }

  function Count(vs: seq<Violation>, q: Key): nat { |Group(vs, q)| }

  /** The distinct keys in the order a Python dictionary keeps them. */
  function FirstSeen(vs: seq<Violation>): seq<Key> {
    if vs == [] then []
    else
      var seen, q := FirstSeen(vs[..|vs| - 1]), KeyOf(vs[|vs| - 1]);
      if q in seen then seen else seen + [q]
  }

  /** The site of the k-th occurrence of a fingerprint. */
  function Label(site: Text, k: nat): Text {
    if k <= 1 then site else site + [HASH] + Decimal(k)
  }

  function Tag(v: Violation, k: nat): Violation { v.(site := Label(v.site, k)) }

  /** A group with its ordinals, in line order. */
  function TagGroup(group: seq<Violation>): (r: seq<Violation>)
    ensures |r| == |group|
  {
    var sorted := Sort(group, ByLine);
    seq(|sorted|, k requires 0 <= k < |sorted| => Tag(sorted[k], k + 1))
  }

  function TagGroups(vs: seq<Violation>, keys: seq<Key>): seq<Violation> {
    if keys == [] then [] else TagGroups(vs, keys[..|keys| - 1]) + TagGroup(Group(vs, keys[|keys| - 1]))
  }

  /** What `disambiguate` returns. */
  function Disambiguated(vs: seq<Violation>): seq<Violation> {
    Sort(TagGroups(vs, FirstSeen(vs)), ByReport)
  }

  lemma GroupSnoc(vs: seq<Violation>, v: Violation, q: Key)
    ensures Group(vs + [v], q) == Group(vs, q) + (if KeyOf(v) == q then [v] else [])
  {
    assert (vs + [v])[..|vs|] == vs;
  }

  lemma SingleTag(v: Violation)
    ensures TagGroup([v]) == [v]
  {
    assert Sort([], ByLine) == [] && [v][..0] == [];
    assert Sort([v], ByLine) == [v];
    assert Tag(v, 1) == v;
  }

  lemma NothingGrouped()
    ensures forall q :: Group([], q) == []
  {
  }

  lemma TagGroupIsTags(group: seq<Violation>)
    ensures |TagGroup(group)| == |Sort(group, ByLine)|
    ensures forall k :: 0 <= k < |group| ==> TagGroup(group)[k] == Tag(Sort(group, ByLine)[k], k + 1)
  {
  }

  lemma LabelOf(v: Violation, k: nat)
    requires k > 0
    ensures Tag(v, k) == if k == 1 then v else v.(site := v.site + [HASH] + Decimal(k))
  {
  }

  method TagOccurrences(group: seq<Violation>) returns (out: seq<Violation>)
    ensures out == TagGroup(group)
  {
    hide Sort, TagGroup, Label;
    var lines := Sort(group, ByLine);
    ghost var tagged := TagGroup(group);
    TagGroupIsTags(group);
    out := [];
    for k := 0 to |lines|
      invariant out == tagged[..k]
    {
      out := out + [if k == 0 then lines[k] else lines[k].(site := lines[k].site + [HASH] + Decimal(k + 1))];
      LabelOf(lines[k], k + 1);
      assert tagged[..k + 1] == tagged[..k] + [tagged[k]];
    }
  }

  method GroupByKey(violations: seq<Violation>) returns (order: seq<Key>, grouped: map<Key, seq<Violation>>)
    ensures order == FirstSeen(violations)
    ensures forall q :: q in order ==> q in grouped && grouped[q] == Group(violations, q)
  {
    hide Filter, Sort, TagGroup, Label;
    grouped := map[];
    order := [];
    NothingGrouped();
    for i := 0 to |violations|
      invariant order == FirstSeen(violations[..i])
      invariant forall q :: q in grouped <==> q in order
      invariant forall q :: Group(violations[..i], q) == if q in grouped then grouped[q] else []
    {
      var v := violations[i];
      assert violations[..i + 1] == violations[..i] + [v];
      forall q ensures Group(violations[..i + 1], q) == Group(violations[..i], q) + (if KeyOf(v) == q then [v] else []) {
        GroupSnoc(violations[..i], v, q);
      }
      if KeyOf(v) !in grouped {
        grouped := grouped[KeyOf(v) := []];
        order := order + [KeyOf(v)];
      }
      grouped := grouped[KeyOf(v) := grouped[KeyOf(v)] + [v]];
    }
    assert violations[..|violations|] == violations;
  }

  method Disambiguate(violations: seq<Violation>) returns (sorted: seq<Violation>)
    ensures sorted == Disambiguated(violations)
  {
    hide Group, Sort, TagGroup, FirstSeen;
    var order, grouped := GroupByKey(violations);
    var out: seq<Violation> := [];
    for j := 0 to |order|
      invariant out == TagGroups(violations, order[..j])
    {
      assert order[..j + 1][..j] == order[..j];
      assert order[j] in order;
      var group := grouped[order[j]];
      if |group| == 1 {
        SingleTag(group[0]);
        assert group == [group[0]];
        out := out + group;
        continue;
      }
      var tagged := TagOccurrences(group);
      out := out + tagged;
    }
    assert order[..|order|] == order;
    sorted := Sort(out, ByReport);
  }

  // ------------------------------------------------------------------ counting keys

  ghost predicate UniqueKeys(vs: seq<Violation>) {
    forall i, j :: 0 <= i < j < |vs| ==> KeyOf(vs[i]) != KeyOf(vs[j])
  }

  lemma UniqueByCount(vs: seq<Violation>)
    ensures UniqueKeys(vs) <==> forall q :: Count(vs, q) <= 1
  {
    forall q ensures Count(vs, q) <= 1 <==> Single(vs, (v: Violation) => KeyOf(v) == q) {
      FilterSingle(vs, v => KeyOf(v) == q);
    }
    if forall q :: Count(vs, q) <= 1 {
      forall i, j | 0 <= i < j < |vs| ensures KeyOf(vs[i]) != KeyOf(vs[j]) {
        assert Count(vs, KeyOf(vs[i])) <= 1;
        assert Single(vs, (v: Violation) => KeyOf(v) == KeyOf(vs[i]));
      }
    }
  }

  lemma LabelsDiffer(s: Text, k: nat, t: Text, l: nat)
    requires k >= 1 && l >= 1 && Label(s, k) == Label(t, l)
    ensures k > 1 && l > 1 ==> s == t && k == l
    ensures s == t ==> k == l
  {
    var whole := Label(s, k);
    if k > 1 && l > 1 {
      var d, e := Decimal(k), Decimal(l);
      assert whole[|s|] == HASH && whole[|t|] == HASH;
      assert forall i :: |s| < i < |whole| ==> IsDigit(whole[i]);
      assert forall i :: |t| < i < |whole| ==> IsDigit(whole[i]);
      if |s| < |t| {
        assert false;
      } else if |t| < |s| {
        assert false;
      } else {
        assert s == whole[..|s|] && t == whole[..|t|];
        assert d == whole[|s| + 1..] && e == whole[|t| + 1..];
        DecimalRoundTrip(k);
        DecimalRoundTrip(l);
      }
    }
  }

  function OrdinalKey(q: Key, k: nat): Key { Key(q.rule, q.path, Label(q.site, k)) }

  /** A group of n violations under q gives one of them the key g. */
  ghost predicate Hits(q: Key, n: nat, g: Key) {
    exists k: nat :: 1 <= k <= n && OrdinalKey(q, k) == g
  }

  lemma OrdinalsDiffer(q: Key, k: nat, r: Key, l: nat)
    requires k >= 1 && l >= 1 && OrdinalKey(q, k) == OrdinalKey(r, l)
    ensures k > 1 && l > 1 ==> q == r && k == l
    ensures q == r ==> k == l
  {
    LabelsDiffer(q.site, k, r.site, l);
  }

  lemma GroupSorted(vs: seq<Violation>, q: Key)
    ensures var sorted := Sort(Group(vs, q), ByLine);
            && Ascending(sorted, ByLine)
            && multiset(sorted) == multiset(Group(vs, q))
            && forall k :: 0 <= k < |sorted| ==> KeyOf(sorted[k]) == q
  {
    hide Sort, Ascending, Ranks;
    ReportOrderRanks();
    var sorted := Sort(Group(vs, q), ByLine);
    SortIsStable(Group(vs, q), ByLine, v => KeyOf(v) == q);
    forall k | 0 <= k < |sorted| ensures KeyOf(sorted[k]) == q {
      assert sorted[k] in multiset(sorted);
      FilterMembers(vs, v => KeyOf(v) == q, sorted[k]);
    }
  }

  /** The ordinals of a group follow line order and keep everything but the site. */
  lemma TagGroupIsOrdered(vs: seq<Violation>, q: Key)
    ensures var tagged := TagGroup(Group(vs, q));
            && (forall k :: 0 <= k < |tagged| ==> KeyOf(tagged[k]) == OrdinalKey(q, k + 1))
            && (forall i, j :: 0 <= i < j < |tagged| ==> tagged[i].lineno <= tagged[j].lineno)
            && multiset(Map(tagged, (v: Violation) => v.(site := q.site))) == multiset(Group(vs, q))
  {
    hide Sort, Group, TagGroup, Label;
    var group := Group(vs, q);
    var sorted, tagged := Sort(group, ByLine), TagGroup(group);
    TagGroupIsTags(group);
    GroupSorted(vs, q);
    forall i, j | 0 <= i < j < |tagged| ensures tagged[i].lineno <= tagged[j].lineno {
      assert !ByLine(sorted[j], sorted[i]);
    }
    assert Map(tagged, (v: Violation) => v.(site := q.site)) == sorted;
  }

  lemma TagCount(vs: seq<Violation>, q: Key, g: Key)
    ensures Count(TagGroup(Group(vs, q)), g) == if Hits(q, Count(vs, q), g) then 1 else 0
  {
    hide Filter, TagGroup, OrdinalKey;
    var tagged := TagGroup(Group(vs, q));
    TagGroupIsOrdered(vs, q);
    FilterSingle(tagged, v => KeyOf(v) == g);
    forall i, j | 0 <= i < j < |tagged| ensures !(KeyOf(tagged[i]) == g && KeyOf(tagged[j]) == g) {
      if OrdinalKey(q, i + 1) == OrdinalKey(q, j + 1) { OrdinalsDiffer(q, i + 1, q, j + 1); }
    }
    if Hits(q, Count(vs, q), g) {
      var k: nat :| 1 <= k <= Count(vs, q) && OrdinalKey(q, k) == g;
      assert KeyOf(tagged[k - 1]) == g;
    }
  }

  /** How many of the groups give the key g. */
  ghost function Hitting(vs: seq<Violation>, keys: seq<Key>, g: Key): nat {
    if keys == [] then 0
    else Hitting(vs, keys[..|keys| - 1], g) + (if Hits(keys[|keys| - 1], Count(vs, keys[|keys| - 1]), g) then 1 else 0)
  }

  lemma {:induction false} TagGroupsCount(vs: seq<Violation>, keys: seq<Key>, g: Key)
    ensures Count(TagGroups(vs, keys), g) == Hitting(vs, keys, g)
  {
    hide TagGroup, Filter, Hits;
    NothingGrouped();
    if keys != [] {
      var init, q := keys[..|keys| - 1], keys[|keys| - 1];
      TagGroupsCount(vs, init, g);
      TagCount(vs, q, g);
      FilterConcat(TagGroups(vs, init), TagGroup(Group(vs, q)), v => KeyOf(v) == g);
    }
  }

  lemma {:induction false} HittingByPairs(vs: seq<Violation>, keys: seq<Key>, g: Key)
    requires Distinct(keys)
    ensures Hitting(vs, keys, g) > 0 <==> exists q :: q in keys && Hits(q, Count(vs, q), g)
    ensures Hitting(vs, keys, g) > 1 <==> exists q, r :: q in keys && r in keys && q != r && Hits(q, Count(vs, q), g) && Hits(r, Count(vs, r), g)
  {
    hide Hits, Count;
    if keys != [] {
      var init, last := keys[..|keys| - 1], keys[|keys| - 1];
      assert keys == init + [last] && last !in init;
      HittingByPairs(vs, init, g);
      assert forall q :: q in keys <==> q in init || q == last;
    }
  }

  lemma {:induction false} FirstSeenIs(vs: seq<Violation>)
    ensures Distinct(FirstSeen(vs))
    ensures forall q :: q in FirstSeen(vs) <==> Count(vs, q) > 0
  {
    hide Filter;
    NothingGrouped();
    if vs != [] {
      var init, v := vs[..|vs| - 1], vs[|vs| - 1];
      assert vs == init + [v];
      FirstSeenIs(init);
      forall q ensures Count(vs, q) == Count(init, q) + (if KeyOf(v) == q then 1 else 0) { GroupSnoc(init, v, q); }
    }
  }

  /** How often a key is given, group by group. */
  lemma KeyCount(vs: seq<Violation>, g: Key)
    ensures Count(Disambiguated(vs), g) == Hitting(vs, FirstSeen(vs), g)
  {
    hide Filter, Sort, TagGroups, Hitting;
    SortKeepsCounts(TagGroups(vs, FirstSeen(vs)), ByReport, v => KeyOf(v) == g);
    TagGroupsCount(vs, FirstSeen(vs), g);
  }

  // ------------------------------------------------------------------ the keys given

  function KeySet(vs: seq<Violation>): set<Key> { set v | v in vs :: KeyOf(v) }

  lemma InKeySet(vs: seq<Violation>, g: Key)
    ensures g in KeySet(vs) <==> Count(vs, g) > 0
  {
    FilterSingle(vs, v => KeyOf(v) == g);
    if g in KeySet(vs) {
      var v :| v in vs && KeyOf(v) == g;
      var i :| 0 <= i < |vs| && vs[i] == v;
    }
  }

  /** The keys given are the first ordinals of every fingerprint, as many as it has hits. */
  lemma KeysGiven(vs: seq<Violation>, g: Key)
    ensures g in KeySet(Disambiguated(vs)) <==> exists q :: Hits(q, Count(vs, q), g)
  {
    hide Count, FirstSeen, Disambiguated, KeySet;
    InKeySet(Disambiguated(vs), g);
    KeyCount(vs, g);
    FirstSeenIs(vs);
    HittingByPairs(vs, FirstSeen(vs), g);
    forall q | Hits(q, Count(vs, q), g) ensures q in FirstSeen(vs) {
    }
  }

  /** The key set depends only on how often each fingerprint occurs, and grows with it. */
  lemma KeysFollowCounts(vs: seq<Violation>, ws: seq<Violation>)
    requires forall q :: Count(vs, q) <= Count(ws, q)
    ensures KeySet(Disambiguated(vs)) <= KeySet(Disambiguated(ws))
  {
    hide Count, Disambiguated, KeySet;
    forall g | g in KeySet(Disambiguated(vs)) ensures g in KeySet(Disambiguated(ws)) {
      KeysGiven(vs, g);
      KeysGiven(ws, g);
      var q :| Hits(q, Count(vs, q), g);
      var k: nat :| 1 <= k <= Count(vs, q) && OrdinalKey(q, k) == g;
      assert Count(vs, q) <= Count(ws, q);
      assert Hits(q, Count(ws, q), g);
    }
  }

  /** A raw site spells an ordinal that a repeated fingerprint is given. */
  ghost predicate Clash(vs: seq<Violation>) {
    exists q: Key, k: nat :: 2 <= k <= Count(vs, q) && Count(vs, OrdinalKey(q, k)) > 0
  }

  lemma FirstOrdinal(q: Key)
    ensures OrdinalKey(q, 1) == q
  {
  }

  /** Keys are unique exactly when no raw site spells an ordinal in use. */
  lemma KeysUniqueIff(vs: seq<Violation>)
    ensures UniqueKeys(Disambiguated(vs)) <==> !Clash(vs)
  {
    hide Count, FirstSeen, Disambiguated, UniqueKeys, Hitting, OrdinalKey;
    UniqueByCount(Disambiguated(vs));
    FirstSeenIs(vs);
    var keys := FirstSeen(vs);
    forall g ensures Count(Disambiguated(vs), g) <= 1 <==> Hitting(vs, keys, g) <= 1 { KeyCount(vs, g); }
    if Clash(vs) {
      var q: Key, k: nat :| 2 <= k <= Count(vs, q) && Count(vs, OrdinalKey(q, k)) > 0;
      var g := OrdinalKey(q, k);
      FirstOrdinal(g);
      if g == q {
        FirstOrdinal(q);
        OrdinalsDiffer(q, 1, q, k);
        assert false;
      }
      assert Hits(q, Count(vs, q), g) && Hits(g, Count(vs, g), g);
      HittingByPairs(vs, keys, g);
      assert Count(Disambiguated(vs), g) > 1;
    } else {
      forall g ensures Count(Disambiguated(vs), g) <= 1 {
        HittingByPairs(vs, keys, g);
        if Hitting(vs, keys, g) > 1 {
          var q, r :| q in keys && r in keys && q != r && Hits(q, Count(vs, q), g) && Hits(r, Count(vs, r), g);
          TwoHitsClash(vs, q, r, g);
        }
      }
    }
  }

  lemma TwoHitsClash(vs: seq<Violation>, q: Key, r: Key, g: Key)
    requires q != r && Hits(q, Count(vs, q), g) && Hits(r, Count(vs, r), g)
    ensures Clash(vs)
  {
    hide Count, OrdinalKey;
    var k: nat :| 1 <= k <= Count(vs, q) && OrdinalKey(q, k) == g;
    var l: nat :| 1 <= l <= Count(vs, r) && OrdinalKey(r, l) == g;
    OrdinalsDiffer(q, k, r, l);
    FirstOrdinal(q);
    FirstOrdinal(r);
    if k == 1 {
      assert 2 <= l && Count(vs, OrdinalKey(r, l)) > 0;
    } else {
      assert 2 <= k && Count(vs, OrdinalKey(q, k)) > 0;
    }
  }

  ghost function Total(vs: seq<Violation>, keys: seq<Key>): nat {
    if keys == [] then 0 else Total(vs, keys[..|keys| - 1]) + Count(vs, keys[|keys| - 1])
  }

  lemma {:induction false} TotalSnoc(vs: seq<Violation>, v: Violation, keys: seq<Key>)
    requires Distinct(keys)
    ensures Total(vs + [v], keys) == Total(vs, keys) + (if KeyOf(v) in keys then 1 else 0)
  {
    hide Group;
    if keys != [] {
      var init, last := keys[..|keys| - 1], keys[|keys| - 1];
      assert keys == init + [last] && last !in init;
      TotalSnoc(vs, v, init);
      GroupSnoc(vs, v, last);
    }
  }

  lemma {:induction false} TotalIsLength(vs: seq<Violation>)
    ensures Total(vs, FirstSeen(vs)) == |vs|
  {
    hide Count;
    if vs != [] {
      var init, v := vs[..|vs| - 1], vs[|vs| - 1];
      assert vs == init + [v];
      TotalIsLength(init);
      FirstSeenIs(init);
      TotalSnoc(init, v, FirstSeen(init));
      if KeyOf(v) !in FirstSeen(init) {
        assert Count(init, KeyOf(v)) == 0;
        assert FirstSeen(vs)[..|FirstSeen(init)|] == FirstSeen(init);
        CountSnoc(init, v, KeyOf(v));
      }
    }
  }

  lemma CountSnoc(vs: seq<Violation>, v: Violation, q: Key)
    ensures Count(vs + [v], q) == Count(vs, q) + (if KeyOf(v) == q then 1 else 0)
  {
    GroupSnoc(vs, v, q);
  }

  lemma {:induction false} TagGroupsLength(vs: seq<Violation>, keys: seq<Key>)
    ensures |TagGroups(vs, keys)| == Total(vs, keys)
  {
    if keys != [] { TagGroupsLength(vs, keys[..|keys| - 1]); }
  }

  /** No violation is lost or invented. */
  lemma SameLength(vs: seq<Violation>)
    ensures |Disambiguated(vs)| == |vs|
  {
    TagGroupsLength(vs, FirstSeen(vs));
    TotalIsLength(vs);
  }

  // ------------------------------------------------------------------ the ledger

  /** Tolerated sites per rule. */
  type Tolerated = map<Text, set<(Text, Text)>>

  predicate IsTolerated(ledger: Tolerated, q: Key) { q.rule in ledger && (q.path, q.site) in ledger[q.rule] }

  function Failures(vs: seq<Violation>, ledger: Tolerated): seq<Violation> {
    Filter(vs, v => !IsTolerated(ledger, KeyOf(v)))
  }

  /** A tolerated site that no violation of its rule is booked under. */
  predicate IsStale(vs: seq<Violation>, ledger: Tolerated, q: Key) { IsTolerated(ledger, q) && q !in KeySet(vs) }

  /** Tolerated sites of one rule, by path and site. */
  predicate SiteLess(a: (Text, Text), b: (Text, Text)) { TextLess(a.0, b.0) || (a.0 == b.0 && TextLess(a.1, b.1)) }

  predicate KeyLess(a: Key, b: Key) {
    TextLess(a.rule, b.rule) || (a.rule == b.rule && SiteLess((a.path, a.site), (b.path, b.site)))
  }

  lemma SitesAreTotal()
    ensures RanksAll(SiteLess)
  {
    hide TextLess;
    TextsAreTotal();
    forall a: (Text, Text), b: (Text, Text), c: (Text, Text) | !SiteLess(b, a) && !SiteLess(c, b) ensures !SiteLess(c, a) {
      assert !TextLess(b.0, a.0) && !TextLess(c.0, b.0);
      TextOrder(c.0, a.0, b.0);
      TextOrder(a.0, b.0, c.0);
      TextOrder(b.0, c.0, a.0);
      assert !TextLess(c.0, a.0);
      if c.0 == a.0 { assert a.0 == b.0 && !TextLess(b.1, a.1) && !TextLess(c.1, b.1); }
    }
  }

  method ApplyExceptions(violations: seq<Violation>, ledger: Tolerated) returns (failures: seq<Violation>, stale: seq<Key>)
    ensures failures == Failures(violations, ledger)
    ensures forall q :: q in stale <==> IsStale(violations, ledger, q)
    ensures StrictlyAscending(stale, KeyLess)
  {
    hide TextLess, SiteLess;
    var observed: map<Text, set<(Text, Text)>> := map[];
    failures := [];
    for i := 0 to |violations|
      invariant failures == Failures(violations[..i], ledger)
      invariant forall q: Key :: q in KeySet(violations[..i]) <==> q.rule in observed && (q.path, q.site) in observed[q.rule]
    {
      var v := violations[i];
      assert violations[..i + 1] == violations[..i] + [v] && violations[..i + 1][..i] == violations[..i];
      assert KeySet(violations[..i + 1]) == KeySet(violations[..i]) + {KeyOf(v)};
      var before := if v.rule in observed then observed[v.rule] else {};
      observed := observed[v.rule := before + {(v.path, v.site)}];
      if !IsTolerated(ledger, KeyOf(v)) {
        failures := failures + [v];
      }
    }
    assert violations[..|violations|] == violations;
    stale := StaleEntries(violations, ledger, observed);
  }

  /** The entries gone stale, rule by rule and site by site. */
  method StaleEntries(ghost violations: seq<Violation>, ledger: Tolerated, observed: map<Text, set<(Text, Text)>>) returns (stale: seq<Key>)
    requires forall q: Key :: q in KeySet(violations) <==> q.rule in observed && (q.path, q.site) in observed[q.rule]
    ensures forall q :: q in stale <==> IsStale(violations, ledger, q)
    ensures StrictlyAscending(stale, KeyLess)
  {
    hide TextLess, SiteLess;
    TextsAreTotal();
    SitesAreTotal();
    stale := [];
    var rules := SortedSet(ledger.Keys, TextLess);
    for i := 0 to |rules|
      invariant forall q :: q in stale <==> IsStale(violations, ledger, q) && q.rule in rules[..i]
      invariant StrictlyAscending(stale, KeyLess)
    {
      var rule := rules[i];
      var sites := SortedSet(ledger[rule] - (if rule in observed then observed[rule] else {}), SiteLess);
      ghost var before := stale;
      assert rules[..i + 1] == rules[..i] + [rule];
      forall q | q in before ensures TextLess(q.rule, rule) {
        var k :| 0 <= k < i && rules[k] == q.rule;
      }
      for j := 0 to |sites|
        invariant forall q :: q in stale <==> q in before || (q.rule == rule && (q.path, q.site) in sites[..j])
        invariant StrictlyAscending(stale, KeyLess)
      {
        var entry := sites[j];
        var key := Key(rule, entry.0, entry.1);
        assert sites[..j + 1] == sites[..j] + [entry];
        forall q | q in stale ensures KeyLess(q, key) {
          if q !in before {
            var k :| 0 <= k < j && sites[k] == (q.path, q.site);
            assert SiteLess(sites[k], sites[j]);
          }
        }
        stale := stale + [key];
      }
      assert sites[..|sites|] == sites;
      forall q ensures q in stale <==> IsStale(violations, ledger, q) && q.rule in rules[..i + 1] {
        if q.rule == rule { assert (q.path, q.site) in sites <==> IsStale(violations, ledger, q); }
      }
    }
    assert rules[..|rules|] == rules;
  }

  function LedgerKeys(ledger: Tolerated): set<Key> {
    set rule, entry | rule in ledger && entry in ledger[rule] :: Key(rule, entry.0, entry.1)
  }

  lemma InLedger(ledger: Tolerated, q: Key)
    ensures q in LedgerKeys(ledger) <==> IsTolerated(ledger, q)
  {
    if IsTolerated(ledger, q) { assert (q.path, q.site) in ledger[q.rule]; }
  }

  /** The check passes: nothing to report either way. */
  ghost predicate Passes(vs: seq<Violation>, ledger: Tolerated) {
    Failures(vs, ledger) == [] && forall q :: !IsStale(vs, ledger, q)
  }

  /** It passes exactly when the observed keys are the ledger. */
  lemma PassesIff(vs: seq<Violation>, ledger: Tolerated)
    ensures Passes(vs, ledger) <==> KeySet(vs) == LedgerKeys(ledger)
  {
    hide IsTolerated, LedgerKeys, Filter;
    forall q ensures q in LedgerKeys(ledger) <==> IsTolerated(ledger, q) { InLedger(ledger, q); }
    FilterSingle(vs, v => !IsTolerated(ledger, KeyOf(v)));
    assert Failures(vs, ledger) == [] <==> forall i :: 0 <= i < |vs| ==> IsTolerated(ledger, KeyOf(vs[i]));
    if Failures(vs, ledger) == [] {
      forall q | q in KeySet(vs) ensures q in LedgerKeys(ledger) {
        var v :| v in vs && KeyOf(v) == q;
      }
    }
    if KeySet(vs) == LedgerKeys(ledger) {
      forall i | 0 <= i < |vs| ensures IsTolerated(ledger, KeyOf(vs[i])) {
        assert KeyOf(vs[i]) in KeySet(vs);
      }
    }
    if Passes(vs, ledger) {
      forall q | q in LedgerKeys(ledger) ensures q in KeySet(vs) {
        assert !IsStale(vs, ledger, q);
      }
    }
  }

  lemma KeySetSnoc(vs: seq<Violation>, v: Violation)
    ensures KeySet(vs + [v]) == KeySet(vs) + {KeyOf(v)}
  {
  }

  lemma UniqueSnoc(vs: seq<Violation>, v: Violation)
    ensures UniqueKeys(vs + [v]) <==> UniqueKeys(vs) && KeyOf(v) !in KeySet(vs)
  {
    var ws := vs + [v];
    assert forall i :: 0 <= i < |vs| ==> ws[i] == vs[i];
    if KeyOf(v) in KeySet(vs) {
      var w :| w in vs && KeyOf(w) == KeyOf(v);
      var i :| 0 <= i < |vs| && vs[i] == w;
      assert KeyOf(ws[i]) == KeyOf(ws[|vs|]);
    }
    if UniqueKeys(ws) {
      assert forall i, j :: 0 <= i < j < |vs| ==> KeyOf(ws[i]) != KeyOf(ws[j]);
    }
  }

  lemma {:induction false} KeySetSize(vs: seq<Violation>)
    ensures |KeySet(vs)| <= |vs|
    ensures |KeySet(vs)| == |vs| <==> UniqueKeys(vs)
  {
    if vs != [] {
      hide KeySet, UniqueKeys, KeyOf;
      var init, v := vs[..|vs| - 1], vs[|vs| - 1];
      assert vs == init + [v];
      KeySetSize(init);
      KeySetSnoc(init, v);
      UniqueSnoc(init, v);
      if KeyOf(v) in KeySet(init) { assert KeySet(vs) == KeySet(init); }
    }
  }

  lemma NoFailures(ledger: Tolerated)
    ensures Failures([], ledger) == [] && KeySet([]) == {}
  {
  }

  lemma FailuresSnoc(vs: seq<Violation>, v: Violation, ledger: Tolerated)
    ensures Failures(vs + [v], ledger) == Failures(vs, ledger) + (if IsTolerated(ledger, KeyOf(v)) then [] else [v])
  {
    assert (vs + [v])[..|vs|] == vs;
  }

  lemma {:induction false} FailureCount(vs: seq<Violation>, ledger: Tolerated)
    requires UniqueKeys(vs)
    ensures |Failures(vs, ledger)| == |KeySet(vs) - LedgerKeys(ledger)|
  {
    hide IsTolerated, LedgerKeys, KeySet, UniqueKeys, KeyOf, Failures;
    if vs == [] {
      NoFailures(ledger);
    } else {
      var init, v := vs[..|vs| - 1], vs[|vs| - 1];
      assert vs == init + [v];
      UniqueSnoc(init, v);
      FailureCount(init, ledger);
      FailuresSnoc(init, v, ledger);
      InLedger(ledger, KeyOf(v));
      KeySetSnoc(init, v);
      if IsTolerated(ledger, KeyOf(v)) {
        assert KeySet(vs) - LedgerKeys(ledger) == KeySet(init) - LedgerKeys(ledger);
      } else {
        assert KeySet(vs) - LedgerKeys(ledger) == (KeySet(init) - LedgerKeys(ledger)) + {KeyOf(v)};
      }
    }
  }

  lemma CountsKeepClashes(vs: seq<Violation>, ws: seq<Violation>)
    requires Clash(vs) && forall q :: Count(vs, q) <= Count(ws, q)
    ensures Clash(ws)
  {
    hide Count;
    var q: Key, k: nat :| 2 <= k <= Count(vs, q) && Count(vs, OrdinalKey(q, k)) > 0;
    assert Count(vs, q) <= Count(ws, q) && Count(vs, OrdinalKey(q, k)) <= Count(ws, OrdinalKey(q, k));
  }

  /** Adding hits to a passing tree, anywhere and in any order, reports exactly as many
      failures and nothing stale. */
  lemma AddedHitsAreReported(vs: seq<Violation>, ws: seq<Violation>, ledger: Tolerated)
    requires Passes(Disambiguated(vs), ledger) && !Clash(ws)
    requires forall q :: Count(vs, q) <= Count(ws, q)
    ensures |Failures(Disambiguated(ws), ledger)| == |ws| - |vs|
    ensures forall q :: !IsStale(Disambiguated(ws), ledger, q)
  {
    hide Count, Disambiguated, KeySet, LedgerKeys, UniqueKeys;
    var a, b := Disambiguated(vs), Disambiguated(ws);
    if Clash(vs) { CountsKeepClashes(vs, ws); }
    KeysUniqueIff(vs);
    KeysUniqueIff(ws);
    KeysFollowCounts(vs, ws);
    PassesIff(a, ledger);
    KeySetSize(a);
    KeySetSize(b);
    SameLength(vs);
    SameLength(ws);
    FailureCount(b, ledger);
    SubsetSizes(LedgerKeys(ledger), KeySet(b));
    forall q ensures !IsStale(b, ledger, q) { InLedger(ledger, q); }
  }

  /** Removing hits from a passing tree leaves as many stale entries and no failure. */
  lemma RemovedHitsAreStale(vs: seq<Violation>, ws: seq<Violation>, ledger: Tolerated)
    requires Passes(Disambiguated(vs), ledger) && !Clash(vs)
    requires forall q :: Count(ws, q) <= Count(vs, q)
    ensures Failures(Disambiguated(ws), ledger) == []
    ensures |LedgerKeys(ledger) - KeySet(Disambiguated(ws))| == |vs| - |ws|
    ensures forall q :: q in LedgerKeys(ledger) - KeySet(Disambiguated(ws)) <==> IsStale(Disambiguated(ws), ledger, q)
  {
    hide Count, Disambiguated, KeySet, LedgerKeys, UniqueKeys, Failures;
    var a, b := Disambiguated(vs), Disambiguated(ws);
    if Clash(ws) { CountsKeepClashes(ws, vs); }
    KeysUniqueIff(vs);
    KeysUniqueIff(ws);
    KeysFollowCounts(ws, vs);
    PassesIff(a, ledger);
    KeySetSize(a);
    KeySetSize(b);
    SameLength(vs);
    SameLength(ws);
    FailureCount(b, ledger);
    assert KeySet(b) - LedgerKeys(ledger) == {};
    SubsetSizes(KeySet(b), LedgerKeys(ledger));
    forall q ensures q in LedgerKeys(ledger) <==> IsTolerated(ledger, q) { InLedger(ledger, q); }
  }

  /** One more hit on a passing tree is reported exactly when it causes no clash: a raw site
      that spells an ordinal in use is excused by that ordinal's entry. */
  lemma OneMoreHit(vs: seq<Violation>, v: Violation, ledger: Tolerated)
    requires Passes(Disambiguated(vs), ledger) && !Clash(vs)
    ensures |Failures(Disambiguated(vs + [v]), ledger)| == if Clash(vs + [v]) then 0 else 1
  {
    hide Count, Disambiguated, KeySet, LedgerKeys, UniqueKeys, Clash;
    var ws := vs + [v];
    forall q ensures Count(vs, q) <= Count(ws, q) { CountSnoc(vs, v, q); }
    if !Clash(ws) {
      AddedHitsAreReported(vs, ws, ledger);
    } else {
      var a, b := Disambiguated(vs), Disambiguated(ws);
      KeysUniqueIff(vs);
      KeysUniqueIff(ws);
      KeysFollowCounts(vs, ws);
      PassesIff(a, ledger);
      KeySetSize(a);
      KeySetSize(b);
      SameLength(vs);
      SameLength(ws);
      SubsetSizes(KeySet(a), KeySet(b));
      assert KeySet(b) == KeySet(a) by { assert KeySet(b) - KeySet(a) == {}; }
      PassesIff(b, ledger);
    }
  }

  /** Two hits on one fingerprint, in rule "r" and file "p" at site "s". */
  const TWICE: seq<Violation> := [Violation([114], [112], 1, [115], []), Violation([114], [112], 2, [115], [])]

  /** A hit whose raw site is the second ordinal's. */
  const SPELLED: Violation := Violation([114], [112], 3, [115, HASH, 50], [])

  const BOOKED: Tolerated := map[[114] := {([112], [115]), ([112], [115, HASH, 50])}]

  lemma TwiceCount(q: Key)
    ensures Count(TWICE, q) == if q == Key([114], [112], [115]) then 2 else 0
  {
    var p := (v: Violation) => KeyOf(v) == q;
    assert TWICE == [TWICE[0]] + [TWICE[1]] && [TWICE[0]][..0] == [] && [TWICE[1]][..0] == [];
    assert Filter([TWICE[0]], p) == if p(TWICE[0]) then [TWICE[0]] else [];
    assert TWICE[..1] == [TWICE[0]];
  }

  lemma SecondLabel()
    ensures Label([115], 2) == [115, HASH, 50] && Label([115], 1) == [115]
  {
    assert Decimal(2) == [50];
  }

  /** The third hit is new, clashes, and is excused by the entry of the second. */
  lemma SpelledOrdinalIsExcused()
    ensures Passes(Disambiguated(TWICE), BOOKED) && !Clash(TWICE)
    ensures Clash(TWICE + [SPELLED]) && Failures(Disambiguated(TWICE + [SPELLED]), BOOKED) == []
  {
    hide Count, Disambiguated, Passes, Failures, Label, KeySet, LedgerKeys;
    var q, g := Key([114], [112], [115]), Key([114], [112], [115, HASH, 50]);
    SecondLabel();
    forall k: Key ensures Count(TWICE, k) == if k == q then 2 else 0 { TwiceCount(k); }
    forall k: Key ensures k in KeySet(Disambiguated(TWICE)) <==> k == q || k == g { TwiceKeys(k); }
    forall k: Key ensures k in LedgerKeys(BOOKED) <==> k == q || k == g { InLedger(BOOKED, k); }
    assert KeySet(Disambiguated(TWICE)) == LedgerKeys(BOOKED);
    PassesIff(Disambiguated(TWICE), BOOKED);
    CountSnoc(TWICE, SPELLED, q);
    CountSnoc(TWICE, SPELLED, g);
    assert OrdinalKey(q, 2) == g;
    OneMoreHit(TWICE, SPELLED, BOOKED);
  }

  lemma TwiceKeys(k: Key)
    ensures k in KeySet(Disambiguated(TWICE)) <==> k == Key([114], [112], [115]) || k == Key([114], [112], [115, HASH, 50])
  {
    hide Count, Disambiguated, Label, KeySet;
    var q := Key([114], [112], [115]);
    SecondLabel();
    forall r: Key ensures Count(TWICE, r) == if r == q then 2 else 0 { TwiceCount(r); }
    KeysGiven(TWICE, k);
    assert OrdinalKey(q, 1) == q && OrdinalKey(q, 2) == Key([114], [112], [115, HASH, 50]);
    assert Hits(q, 2, k) <==> k == OrdinalKey(q, 1) || k == OrdinalKey(q, 2);
    forall r | Hits(r, Count(TWICE, r), k) ensures r == q { assert Count(TWICE, r) > 0; }
    assert Hits(q, Count(TWICE, q), k) <==> Hits(q, 2, k);
  }

  // ------------------------------------------------------------------ moving lines

  function Moved(v: Violation, line: int -> int): Violation { v.(lineno := line(v.lineno)) }

  function MoveAll(vs: seq<Violation>, line: int -> int): (r: seq<Violation>)
    ensures |r| == |vs|
    ensures forall i :: 0 <= i < |vs| ==> r[i] == Moved(vs[i], line)
  {
    Map(vs, v => Moved(v, line))
  }

  ghost predicate Rises(line: int -> int) {
    forall a, b :: a < b ==> line(a) < line(b)
  }

  lemma {:induction false} FilterMoves(vs: seq<Violation>, line: int -> int, p: Violation -> bool)
    requires forall v :: p(Moved(v, line)) == p(v)
    ensures Filter(MoveAll(vs, line), p) == MoveAll(Filter(vs, p), line)
  {
    if vs != [] {
      var init, v := vs[..|vs| - 1], vs[|vs| - 1];
      assert MoveAll(vs, line)[..|vs| - 1] == MoveAll(init, line);
      FilterMoves(init, line, p);
    }
  }

  lemma SortMoves(vs: seq<Violation>, line: int -> int, less: (Violation, Violation) -> bool)
    requires forall a, b :: less(Moved(a, line), Moved(b, line)) == less(a, b)
    ensures Sort(MoveAll(vs, line), less) == MoveAll(Sort(vs, less), line)
  {
    var f := (v: Violation) => Moved(v, line);
    SortCommutes(vs, f, less);
    assert MoveAll(vs, line) == Map(vs, f);
    assert MoveAll(Sort(vs, less), line) == Map(Sort(vs, less), f);
  }

  lemma LineOrderMoves(line: int -> int)
    requires Rises(line)
    ensures forall a, b :: ByLine(Moved(a, line), Moved(b, line)) == ByLine(a, b)
    ensures forall a, b :: ByReport(Moved(a, line), Moved(b, line)) == ByReport(a, b)
  {
    forall a: int, b: int ensures (line(a) < line(b)) == (a < b) && (line(a) == line(b)) == (a == b) {
      if b < a { assert line(b) < line(a); }
    }
  }

  lemma TagGroupMoves(group: seq<Violation>, line: int -> int)
    requires Rises(line)
    ensures TagGroup(MoveAll(group, line)) == MoveAll(TagGroup(group), line)
  {
    hide Sort;
    LineOrderMoves(line);
    SortMoves(group, line, ByLine);
  }

  lemma GroupMoves(vs: seq<Violation>, line: int -> int, q: Key)
    ensures Group(MoveAll(vs, line), q) == MoveAll(Group(vs, q), line)
  {
    FilterMoves(vs, line, v => KeyOf(v) == q);
  }

  lemma {:induction false} TagGroupsMove(vs: seq<Violation>, line: int -> int, keys: seq<Key>)
    requires Rises(line)
    ensures TagGroups(MoveAll(vs, line), keys) == MoveAll(TagGroups(vs, keys), line)
  {
    hide TagGroup, Group;
    if keys != [] {
      var init, q := keys[..|keys| - 1], keys[|keys| - 1];
      TagGroupsMove(vs, line, init);
      GroupMoves(vs, line, q);
      TagGroupMoves(Group(vs, q), line);
    }
  }

  lemma {:induction false} FirstSeenMoves(vs: seq<Violation>, line: int -> int)
    ensures FirstSeen(MoveAll(vs, line)) == FirstSeen(vs)
  {
    if vs != [] {
      assert MoveAll(vs, line)[..|vs| - 1] == MoveAll(vs[..|vs| - 1], line);
      FirstSeenMoves(vs[..|vs| - 1], line);
    }
  }

  /** Renumbering lines in order renumbers the result and touches no key. */
  lemma DisambiguatedMoves(vs: seq<Violation>, line: int -> int)
    requires Rises(line)
    ensures Disambiguated(MoveAll(vs, line)) == MoveAll(Disambiguated(vs), line)
  {
    hide Sort, TagGroups, FirstSeen;
    FirstSeenMoves(vs, line);
    TagGroupsMove(vs, line, FirstSeen(vs));
    LineOrderMoves(line);
    SortMoves(TagGroups(vs, FirstSeen(vs)), line, ByReport);
  }

  // ------------------------------------------------------------------ fingerprints

  /** A raw hit of a rule: where, and the anchor that names it. */
  datatype Hit = Hit(rule: Text, lineno: int, anchor: Text, detail: Text)

  /** The nearest declaration at or above a line, empty when there is none. A file is the
      declaration found on each line, empty where a line declares nothing. */
  function Enclosing(symbols: seq<Text>, lineno: int): Text
    decreases lineno
  {
    if lineno <= 0 then []
    else if lineno > |symbols| then Enclosing(symbols, |symbols|)
    else if symbols[lineno - 1] != [] then symbols[lineno - 1]
    else Enclosing(symbols, lineno - 1)
  }

  method EnclosingSymbol(symbols: seq<Text>, lineno: int) returns (symbol: Text)
    ensures symbol == Enclosing(symbols, lineno)
  {
    var index := (if lineno < |symbols| then lineno else |symbols|) - 1;
    while index >= 0
      invariant index < |symbols|
      invariant Enclosing(symbols, index + 1) == Enclosing(symbols, lineno)
    {
      if symbols[index] != [] {
        return symbols[index];
      }
      index := index - 1;
    }
    return [];
  }

  /** `fingerprint`: the anchor, qualified by its enclosing declaration. */
  function Fingerprint(symbols: seq<Text>, lineno: int, anchor: Text): Text {
    var symbol := Enclosing(symbols, lineno);
    if symbol != [] then symbol + Lit("::") + anchor else anchor
  }

  function Book(path: Text, symbols: seq<Text>, h: Hit): Violation {
    Violation(h.rule, path, h.lineno, Fingerprint(symbols, h.lineno, h.anchor), h.detail)
  }

  /** The violations of one file. */
  function Booked(path: Text, symbols: seq<Text>, hits: seq<Hit>): (r: seq<Violation>)
    ensures |r| == |hits|
    ensures forall i :: 0 <= i < |hits| ==> r[i] == Book(path, symbols, hits[i])
  {
    Map(hits, h => Book(path, symbols, h))
  }

  /** Line numbers after n lines were inserted below line `at`. */
  function Shift(at: nat, n: nat, lineno: int): int { if lineno > at then lineno + n else lineno }

  function InsertBlank(symbols: seq<Text>, at: nat, n: nat): seq<Text>
    requires at <= |symbols|
  {
    symbols[..at] + seq(n, i => []) + symbols[at..]
  }

  lemma {:induction false} EnclosingShifts(symbols: seq<Text>, at: nat, n: nat, lineno: int)
    requires at <= |symbols|
    ensures Enclosing(InsertBlank(symbols, at, n), Shift(at, n, lineno)) == Enclosing(symbols, lineno)
    decreases lineno
  {
    if lineno > |symbols| {
      EnclosingShifts(symbols, at, n, |symbols|);
      if at == |symbols| { BlankIsSkipped(symbols, at, n, n); }
    } else if lineno > 0 {
      EnclosingShifts(symbols, at, n, lineno - 1);
      if lineno == at + 1 { BlankIsSkipped(symbols, at, n, n); }
    }
  }

  lemma {:induction false} BlankIsSkipped(symbols: seq<Text>, at: nat, n: nat, k: nat)
    requires at <= |symbols| && k <= n
    ensures Enclosing(InsertBlank(symbols, at, n), at + k) == Enclosing(InsertBlank(symbols, at, n), at)
  {
    if k > 0 {
      BlankIsSkipped(symbols, at, n, k - 1);
    }
  }

  /** Lines that declare nothing and violate nothing change no key and no verdict; they only
      renumber what is reported. */
  lemma NeutralLines(path: Text, symbols: seq<Text>, hits: seq<Hit>, at: nat, n: nat, ledger: Tolerated)
    requires at <= |symbols|
    ensures var before := Disambiguated(Booked(path, symbols, hits));
            var after := Disambiguated(Booked(path, InsertBlank(symbols, at, n), Map(hits, (h: Hit) => h.(lineno := Shift(at, n, h.lineno)))));
            && after == MoveAll(before, l => Shift(at, n, l))
            && Failures(after, ledger) == MoveAll(Failures(before, ledger), l => Shift(at, n, l))
            && forall q :: IsStale(after, ledger, q) <==> IsStale(before, ledger, q)
  {
    hide Disambiguated, Failures, InsertBlank, Shift, MoveAll, IsTolerated;
    var line := (l: int) => Shift(at, n, l);
    var shifted := Map(hits, (h: Hit) => h.(lineno := Shift(at, n, h.lineno)));
    var before := Booked(path, symbols, hits);
    forall i | 0 <= i < |hits| ensures Book(path, InsertBlank(symbols, at, n), shifted[i]) == Moved(before[i], line) {
      EnclosingShifts(symbols, at, n, hits[i].lineno);
    }
    assert Booked(path, InsertBlank(symbols, at, n), shifted) == MoveAll(before, line);
    ShiftRises(at, n, line);
    DisambiguatedMoves(before, line);
    FailuresMove(Disambiguated(before), line, ledger);
    KeysMove(Disambiguated(before), line);
  }

  lemma ShiftRises(at: nat, n: nat, line: int -> int)
    requires forall l :: line(l) == Shift(at, n, l)
    ensures Rises(line)
  {
  }

  lemma FailuresMove(vs: seq<Violation>, line: int -> int, ledger: Tolerated)
    ensures Failures(MoveAll(vs, line), ledger) == MoveAll(Failures(vs, ledger), line)
  {
    FilterMoves(vs, line, v => !IsTolerated(ledger, KeyOf(v)));
  }

  lemma KeysMove(vs: seq<Violation>, line: int -> int)
    ensures KeySet(MoveAll(vs, line)) == KeySet(vs)
  {
    forall q ensures q in KeySet(MoveAll(vs, line)) <==> q in KeySet(vs) {
      if q in KeySet(vs) {
        var v :| v in vs && KeyOf(v) == q;
        var i :| 0 <= i < |vs| && vs[i] == v;
        assert MoveAll(vs, line)[i] in MoveAll(vs, line) && KeyOf(MoveAll(vs, line)[i]) == q;
      }
      if q in KeySet(MoveAll(vs, line)) {
        var w :| w in MoveAll(vs, line) && KeyOf(w) == q;
        var i :| 0 <= i < |vs| && MoveAll(vs, line)[i] == w;
        assert KeyOf(vs[i]) == q;
      }
    }
  }
}
