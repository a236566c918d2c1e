/** Python's `sorted`, filters and maps over lists, and the order of strings. */
module Lists {
  import opened Text

  /** Insert after every element that is not greater. */
  function Insert<T>(s: seq<T>, x: T, less: (T, T) -> bool): (r: seq<T>)
    ensures |r| == |s| + 1
  {
    if s == [] || !less(x, s[|s| - 1]) then s + [x] else Insert(s[..|s| - 1], x, less) + [s[|s| - 1]]
  }

  /** Python's `sorted`: see `SortIsStable`. */
  function Sort<T>(s: seq<T>, less: (T, T) -> bool): (r: seq<T>)
    ensures |r| == |s|
  {
    if s == [] then [] else Insert(Sort(s[..|s| - 1], less), s[|s| - 1], less)
  }

  /** `less` is a strict weak order. */
  ghost predicate Ranks<T(!new)>(less: (T, T) -> bool) {
    && (forall a, b :: less(a, b) ==> !less(b, a))
    && (forall a, b, c :: !less(b, a) && !less(c, b) ==> !less(c, a))
  }

  ghost predicate Ascending<T>(s: seq<T>, less: (T, T) -> bool) {
    forall i, j :: 0 <= i < j < |s| ==> !less(s[j], s[i])
  }

  function Filter<T>(s: seq<T>, p: T -> bool): (r: seq<T>)
    ensures |r| <= |s|
  {
    if s == [] then [] else Filter(s[..|s| - 1], p) + (if p(s[|s| - 1]) then [s[|s| - 1]] else [])
  }

  lemma {:induction false} FilterConcat<T>(a: seq<T>, b: seq<T>, p: T -> bool)
    ensures Filter(a + b, p) == Filter(a, p) + Filter(b, p)
    decreases |b|
  {
    if b == [] {
      assert a + b == a;
    } else {
      assert (a + b)[..|a + b| - 1] == a + b[..|b| - 1];
      FilterConcat(a, b[..|b| - 1], p);
    }
  }

  /** No two elements of the class are ordered by `less`. */
  ghost predicate Tied<T(!new)>(less: (T, T) -> bool, p: T -> bool) {
    forall a, b :: p(a) && p(b) ==> !less(a, b)
  }

  lemma {:induction false} InsertIsAscending<T(!new)>(s: seq<T>, x: T, less: (T, T) -> bool)
    requires Ranks(less) && Ascending(s, less)
    ensures Ascending(Insert(s, x, less), less)
    decreases |s|
  {
    if s != [] && less(x, s[|s| - 1]) {
      var init, last := s[..|s| - 1], s[|s| - 1];
      InsertIsAscending(init, x, less);
      var r := Insert(init, x, less);
      forall i | 0 <= i < |r| ensures !less(last, r[i]) { InsertMember(init, x, less, i); }
    }
  }

  lemma {:induction false} InsertMember<T>(s: seq<T>, x: T, less: (T, T) -> bool, i: nat)
    requires i < |Insert(s, x, less)|
    ensures var y := Insert(s, x, less)[i]; y == x || y in s
    decreases |s|
  {
    if s != [] && less(x, s[|s| - 1]) && i < |s| { InsertMember(s[..|s| - 1], x, less, i); }
  }

  lemma {:induction false} InsertElements<T>(s: seq<T>, x: T, less: (T, T) -> bool)
    ensures multiset(Insert(s, x, less)) == multiset(s) + multiset{x}
    decreases |s|
  {
    if s != [] && less(x, s[|s| - 1]) {
      assert s == s[..|s| - 1] + [s[|s| - 1]];
      InsertElements(s[..|s| - 1], x, less);
    }
  }

  lemma {:induction false} InsertKeepsTies<T(!new)>(s: seq<T>, x: T, less: (T, T) -> bool, p: T -> bool)
    requires Tied(less, p)
    ensures Filter(Insert(s, x, less), p) == Filter(s, p) + (if p(x) then [x] else [])
    decreases |s|
  {
    hide Filter;
    FilterSnoc(s, x, p);
    if s != [] && less(x, s[|s| - 1]) {
      var init, last := s[..|s| - 1], s[|s| - 1];
      assert s == init + [last];
      InsertKeepsTies(init, x, less, p);
      FilterSnoc(Insert(init, x, less), last, p);
      FilterSnoc(init, last, p);
      assert p(last) ==> !p(x);
    }
  }

  lemma FilterSnoc<T>(s: seq<T>, x: T, p: T -> bool)
    ensures Filter(s + [x], p) == Filter(s, p) + (if p(x) then [x] else [])
  {
    assert (s + [x])[..|s|] == s;
  }

  /** Sorting orders, permutes, and keeps ties in their original order. */
  lemma {:induction false} SortIsStable<T(!new)>(s: seq<T>, less: (T, T) -> bool, p: T -> bool)
    requires Ranks(less)
    ensures Ascending(Sort(s, less), less)
    ensures multiset(Sort(s, less)) == multiset(s)
    ensures Tied(less, p) ==> Filter(Sort(s, less), p) == Filter(s, p)
  {
    hide Insert, Ranks, Tied, Ascending;
    SortNothing(less);
    if s != [] {
      var init, last := s[..|s| - 1], s[|s| - 1];
      assert s == init + [last];
      SortIsStable(init, less, p);
      InsertIsAscending(Sort(init, less), last, less);
      InsertElements(Sort(init, less), last, less);
      if Tied(less, p) { InsertKeepsTies(Sort(init, less), last, less, p); }
    }
  }

  lemma SortNothing<T>(less: (T, T) -> bool)
    ensures Ascending(Sort([], less), less)
  {
  }

  /** How many elements a filter keeps does not depend on the order: sorting keeps it. */
  lemma {:induction false} SortKeepsCounts<T>(s: seq<T>, less: (T, T) -> bool, p: T -> bool)
    ensures |Filter(Sort(s, less), p)| == |Filter(s, p)|
  {
    if s != [] {
      SortKeepsCounts(s[..|s| - 1], less, p);
      InsertKeepsCounts(Sort(s[..|s| - 1], less), s[|s| - 1], less, p);
    }
  }

  lemma {:induction false} InsertKeepsCounts<T>(s: seq<T>, x: T, less: (T, T) -> bool, p: T -> bool)
    ensures |Filter(Insert(s, x, less), p)| == |Filter(s, p)| + (if p(x) then 1 else 0)
    decreases |s|
  {
    assert (s + [x])[..|s|] == s;
    if s != [] && less(x, s[|s| - 1]) {
      InsertKeepsCounts(s[..|s| - 1], x, less, p);
      var r := Insert(s[..|s| - 1], x, less);
      assert (r + [s[|s| - 1]])[..|r|] == r;
    }
  }

  function Map<T, U>(s: seq<T>, f: T -> U): (r: seq<U>)
    ensures |r| == |s|
    ensures forall i :: 0 <= i < |s| ==> r[i] == f(s[i])
  {
    seq(|s|, i requires 0 <= i < |s| => f(s[i]))
  }

  /** A map that neither makes nor breaks the order. */
  ghost predicate Keeps<T(!new)>(f: T -> T, less: (T, T) -> bool) {
    forall a, b :: less(f(a), f(b)) == less(a, b)
  }

  lemma {:induction false} InsertCommutes<T>(s: seq<T>, x: T, f: T -> T, less: (T, T) -> bool)
    requires forall i :: 0 <= i < |s| ==> less(f(x), f(s[i])) == less(x, s[i])
    ensures Insert(Map(s, f), f(x), less) == Map(Insert(s, x, less), f)
    decreases |s|
  {
    if s != [] {
      var init, last := s[..|s| - 1], s[|s| - 1];
      assert Map(s, f)[..|s| - 1] == Map(init, f);
      assert forall i :: 0 <= i < |init| ==> init[i] == s[i];
      InsertCommutes(init, x, f, less);
    }
  }

  /** Such a map commutes with sorting. */
  lemma {:induction false} SortCommutes<T(!new)>(s: seq<T>, f: T -> T, less: (T, T) -> bool)
    requires Keeps(f, less)
    ensures Sort(Map(s, f), less) == Map(Sort(s, less), f)
  {
    if s != [] {
      var init, last := s[..|s| - 1], s[|s| - 1];
      assert s == init + [last];
      assert Map(s, f)[..|s| - 1] == Map(init, f);
      SortCommutes(init, f, less);
      InsertCommutes(Sort(init, less), last, f, less);
    }
  }

  function StripLeft<T>(s: seq<T>, space: T -> bool): (r: seq<T>)
    ensures |r| <= |s|
  {
    if s != [] && space(s[0]) then StripLeft(s[1..], space) else s
  }

  function StripRight<T>(s: seq<T>, space: T -> bool): (r: seq<T>)
    ensures |r| <= |s|
  {
    if s != [] && space(s[|s| - 1]) then StripRight(s[..|s| - 1], space) else s
  }

  /** Python's `s.strip()`. */
  function Strip<T>(s: seq<T>, space: T -> bool): (r: seq<T>)
    ensures |r| <= |s|
  {
    StripRight(StripLeft(s, space), space)
  }

  lemma PrefixOfLonger<T>(s: seq<T>, x: T, t: seq<T>)
    requires s + [x] <= t
    ensures s <= t && t != []
  {
    assert s == (s + [x])[..|s|] == t[..|s|];
  }

  /** `less` ranks every two elements one way or the other. */
  ghost predicate RanksAll<T(!new)>(less: (T, T) -> bool) {
    Ranks(less) && forall a, b :: less(a, b) || less(b, a) || a == b
  }

  ghost predicate StrictlyAscending<T>(s: seq<T>, less: (T, T) -> bool) {
    forall i, j :: 0 <= i < j < |s| ==> less(s[i], s[j])
  }

  /** Python's `sorted` on a set. */
  method SortedSet<T(==, !new)>(items: set<T>, less: (T, T) -> bool) returns (r: seq<T>)
    requires RanksAll(less)
    ensures forall x :: x in r <==> x in items
    ensures StrictlyAscending(r, less)
  {
    var listed: seq<T> := [];
    var rest := items;
    while rest != {}
      invariant rest <= items
      invariant forall x :: x in listed <==> x in items && x !in rest
      invariant Distinct(listed)
      decreases |rest|
    {
      var x :| x in rest;
      rest := rest - {x};
      listed := listed + [x];
    }
    r := Sort(listed, less);
    SortOfDistinct(listed, less);
  }

  lemma SortOfDistinct<T(!new)>(s: seq<T>, less: (T, T) -> bool)
    requires RanksAll(less) && Distinct(s)
    ensures StrictlyAscending(Sort(s, less), less)
    ensures forall x :: x in Sort(s, less) <==> x in s
  {
    var r := Sort(s, less);
    SortIsStable(s, less, x => false);
    forall x ensures (x in r <==> x in s) && multiset(r)[x] <= 1 {
      assert x in multiset(r) <==> x in multiset(s);
      DistinctIsOnce(s, x);
    }
    OnceIsDistinct(r);
  }

  ghost predicate Distinct<T>(s: seq<T>) { forall i, j :: 0 <= i < j < |s| ==> s[i] != s[j] }

  lemma {:induction false} DistinctIsOnce<T>(s: seq<T>, x: T)
    requires Distinct(s)
    ensures multiset(s)[x] <= 1
  {
    if s != [] {
      var init, last := s[..|s| - 1], s[|s| - 1];
      assert s == init + [last] && forall i :: 0 <= i < |init| ==> init[i] == s[i];
      DistinctIsOnce(init, x);
      if x == last { assert x !in init && multiset(init)[x] == 0; }
    }
  }

  lemma TwiceCounts<T>(s: seq<T>, i: nat, j: nat)
    requires i < j < |s| && s[i] == s[j]
    ensures multiset(s)[s[i]] >= 2
  {
    var x, a, b := s[i], s[..j], s[j..];
    assert s == a + b && a[i] == x && b[0] == x;
    assert multiset(s) == multiset(a) + multiset(b);
    assert x in multiset(a) && x in multiset(b);
  }

  lemma OnceIsDistinct<T(!new)>(s: seq<T>)
    requires forall x :: multiset(s)[x] <= 1
    ensures Distinct(s)
  {
    forall i, j | 0 <= i < j < |s| ensures s[i] != s[j] {
      if s[i] == s[j] { TwiceCounts(s, i, j); }
    }
  }

  /** Python compares strings by code point. */
  predicate TextLess(a: Text, b: Text) {
    b != [] && (a == [] || a[0] < b[0] || (a[0] == b[0] && TextLess(a[1..], b[1..])))
  }

  lemma {:induction false} TextOrder(a: Text, b: Text, c: Text)
    ensures TextLess(a, b) ==> !TextLess(b, a)
    ensures !TextLess(a, b) && !TextLess(b, a) ==> a == b
    ensures TextLess(a, b) && TextLess(b, c) ==> TextLess(a, c)
    decreases |a|
  {
    if a != [] && b != [] {
      assert a == [a[0]] + a[1..] && b == [b[0]] + b[1..];
      TextOrder(a[1..], b[1..], if c == [] then [] else c[1..]);
    }
  }

  lemma {:induction false} FilterMembers<T>(s: seq<T>, p: T -> bool, x: T)
    ensures x in Filter(s, p) <==> x in s && p(x)
  {
    if s != [] {
      assert s == s[..|s| - 1] + [s[|s| - 1]];
      FilterMembers(s[..|s| - 1], p, x);
    }
  }

  lemma TextsAreTotal()
    ensures RanksAll(TextLess)
  {
    forall a, b ensures (TextLess(a, b) ==> !TextLess(b, a)) && (TextLess(a, b) || TextLess(b, a) || a == b) { TextOrder(a, b, a); }
    forall a, b, c | !TextLess(b, a) && !TextLess(c, b) ensures !TextLess(c, a) {
      TextOrder(a, b, c);
      TextOrder(c, a, b);
      TextOrder(b, c, a);
      TextOrder(c, b, a);
    }
  }

  ghost predicate Single<T>(s: seq<T>, p: T -> bool) {
    forall i, j :: 0 <= i < j < |s| ==> !(p(s[i]) && p(s[j]))
  }

  lemma {:induction false} FilterSingle<T>(s: seq<T>, p: T -> bool)
    ensures |Filter(s, p)| > 0 <==> exists i :: 0 <= i < |s| && p(s[i])
    ensures |Filter(s, p)| <= 1 <==> Single(s, p)
  {
    if s != [] {
      var n := |s| - 1;
      FilterSingle(s[..n], p);
      assert forall i :: 0 <= i < n ==> s[..n][i] == s[i];
      if !Single(s[..n], p) {
        var i, j :| 0 <= i < j < n && p(s[..n][i]) && p(s[..n][j]);
        assert p(s[i]) && p(s[j]);
      }
      if p(s[n]) && |Filter(s[..n], p)| > 0 {
        var i :| 0 <= i < n && p(s[..n][i]);
        assert p(s[i]) && p(s[n]);
      }
    }
  }

  lemma SubsetSizes<T>(a: set<T>, b: set<T>)
    requires a <= b
    ensures |b - a| == |b| - |a|
  {
    assert b == a + (b - a);
  }
}
