/** The "admission before effect" test of scripts/check_session_mutation_admission.py: it
    drops all white space from the stripped body and compares where the admission call and
    the effects stand. What that does to word boundaries is made exact here. */
module Admission {
  import opened Text
  import opened Lists
  import opened RustStrip

  // ------------------------------------------------------------------ admission before effect

  /** The stripped text without white space. */
  function Flat(t: Text, space: int -> bool): Text { Filter(Stripped(t), c => !space(c)) }

  ghost function FlatMarks(t: Text, space: int -> bool): seq<Mark> { Filter(Kept(t, 0), (m: Mark) => !space(m.c)) }

  lemma {:induction false} FilterChars(marks: seq<Mark>, space: int -> bool)
    ensures Filter(Map(marks, (m: Mark) => m.c), c => !space(c)) == Map(Filter(marks, (m: Mark) => !space(m.c)), (m: Mark) => m.c)
  {
    if marks != [] {
      FilterChars(marks[..|marks| - 1], space);
      assert Map(marks, (m: Mark) => m.c)[..|marks| - 1] == Map(marks[..|marks| - 1], (m: Mark) => m.c);
    }
  }

  lemma PickedInit(marks: seq<Mark>, t: Text)
    requires marks != [] && Picked(marks, t, 0)
    ensures Picked(marks[..|marks| - 1], t, 0)
    ensures forall m :: m in marks[..|marks| - 1] ==> m.at < marks[|marks| - 1].at
  {
  }

  lemma PickedSnoc(marks: seq<Mark>, last: Mark, t: Text)
    requires Picked(marks, t, 0) && last.at < |t| && t[last.at] == last.c
    requires forall m :: m in marks ==> m.at < last.at
    ensures Picked(marks + [last], t, 0)
  {
    assert forall i :: 0 <= i < |marks| ==> marks[i] in marks;
  }

  lemma {:induction false} FilterPicked(marks: seq<Mark>, p: Mark -> bool, t: Text)
    requires Picked(marks, t, 0)
    ensures Picked(Filter(marks, p), t, 0)
  {
    hide Picked;
    PickedNothing(t, 0);
    if marks != [] {
      var init, last := marks[..|marks| - 1], marks[|marks| - 1];
      PickedInit(marks, t);
      FilterPicked(init, p, t);
      if p(last) {
        forall m | m in Filter(init, p) ensures m.at < last.at { FilterMembers(init, p, m); }
        PickedLast(marks, t);
        PickedSnoc(Filter(init, p), last, t);
      } else {
        assert Filter(marks, p) == Filter(init, p);
      }
    }
  }

  lemma PickedLast(marks: seq<Mark>, t: Text)
    requires marks != [] && Picked(marks, t, 0)
    ensures marks[|marks| - 1].at < |t| && t[marks[|marks| - 1].at] == marks[|marks| - 1].c
  {
  }

  /** The flattened text is the code characters other than white space, in source order. */
  lemma FlatInOrder(t: Text, space: int -> bool)
    ensures Picked(FlatMarks(t, space), t, 0)
    ensures Map(FlatMarks(t, space), (m: Mark) => m.c) == Flat(t, space)
  {
    hide Picked, Kept, Stripped;
    KeptInOrder(t, 0);
    FilterChars(Kept(t, 0), space);
    FilterPicked(Kept(t, 0), (m: Mark) => !space(m.c), t);
  }

  predicate IsWordChar(c: int) { 48 <= c <= 57 || 65 <= c <= 90 || c == 95 || 97 <= c <= 122 }

  /** The name stands at k, not as part of a longer word. */
  predicate BoundedAt(flat: Text, name: Text, k: int) {
    && At(flat, name, k)
    && (k > 0 ==> !IsWordChar(flat[k - 1]))
    && (k + |name| < |flat| ==> !IsWordChar(flat[k + |name|]))
  }

  /** The first such place, or -1. */
  function FindBounded(flat: Text, name: Text, from: nat): (r: int)
    ensures r == -1 || (r >= from && BoundedAt(flat, name, r))
    ensures forall k :: from <= k && BoundedAt(flat, name, k) ==> 0 <= r <= k
    decreases |flat| - from
  {
    if from + |name| > |flat| then -1 else if BoundedAt(flat, name, from) then from else FindBounded(flat, name, from + 1)
  }

  datatype Verdict = NotAdmitted | EffectFirst(effect: Text) | Admitted

  /** Starting from this place of the source the code, white space aside, spells the word. */
  ghost predicate SpelledAt(body: Text, space: int -> bool, word: Text, place: nat) {
    exists k :: 0 <= k < |FlatMarks(body, space)| && At(Flat(body, space), word, k) && FlatMarks(body, space)[k].at == place
  }

  /** The same, as a whole word. */
  ghost predicate CalledAt(body: Text, space: int -> bool, name: Text, place: nat) {
    exists k :: 0 <= k < |FlatMarks(body, space)| && BoundedAt(Flat(body, space), name, k) && FlatMarks(body, space)[k].at == place
  }

  /** An effect spelled at a source place that no admission call comes at or before. */
  ghost predicate Unadmitted(body: Text, space: int -> bool, admit: Text, effect: Text) {
    exists p: nat :: SpelledAt(body, space, effect, p) && forall q: nat :: CalledAt(body, space, admit, q) ==> p < q
  }

  lemma FlatPlaces(body: Text, space: int -> bool)
    ensures |FlatMarks(body, space)| == |Flat(body, space)|
    ensures forall i, j :: 0 <= i < j < |Flat(body, space)| ==> FlatMarks(body, space)[i].at < FlatMarks(body, space)[j].at
  {
    hide Flat, FlatMarks;
    FlatInOrder(body, space);
  }

  /** Comparing indices of the flattened text is comparing places of the source. */
  lemma EarlierIffUnadmitted(body: Text, space: int -> bool, admit: Text, effect: Text)
    requires admit != []
    ensures var flat := Flat(body, space);
            var a, e := FindBounded(flat, admit, 0), Find(flat, effect, 0);
            && (a < 0 <==> forall q :: !CalledAt(body, space, admit, q))
            && (a >= 0 ==> (0 <= e < a <==> Unadmitted(body, space, admit, effect)))
  {
    hide Flat, FlatMarks, Find, FindBounded, At, IsWordChar;
    var flat, marks := Flat(body, space), FlatMarks(body, space);
    FlatPlaces(body, space);
    var a, e := FindBounded(flat, admit, 0), Find(flat, effect, 0);
    if a >= 0 {
      AtInside(flat, admit, a);
      assert CalledAt(body, space, admit, marks[a].at);
      if 0 <= e < a {
        forall q | CalledAt(body, space, admit, q) ensures marks[e].at < q {
          var k :| 0 <= k < |marks| && BoundedAt(flat, admit, k) && marks[k].at == q;
          assert a <= k;
        }
        assert SpelledAt(body, space, effect, marks[e].at);
      }
      if Unadmitted(body, space, admit, effect) {
        var p: nat :| SpelledAt(body, space, effect, p) && forall q: nat :: CalledAt(body, space, admit, q) ==> p < q;
        var k :| 0 <= k < |marks| && At(flat, effect, k) && marks[k].at == p;
        assert p < marks[a].at;
        assert 0 <= e <= k;
      }
    }
  }

  lemma AtInside(t: Text, needle: Text, k: int)
    requires At(t, needle, k) && needle != []
    ensures 0 <= k < |t|
  {
  }

  // ------------------------------------------------------------------ calls in the source

  /** The characters other than white space. */
  function Squeeze(s: Text, space: int -> bool): Text { Filter(s, c => !space(c)) }

  lemma SqueezeConcat(a: Text, b: Text, space: int -> bool)
    ensures Squeeze(a + b, space) == Squeeze(a, space) + Squeeze(b, space)
  {
    FilterConcat(a, b, c => !space(c));
  }

  /** White space aside, `s[k..e]` spells the word, from its first character to its last. */
  predicate Spans(s: Text, space: int -> bool, word: Text, k: nat, e: nat) {
    k < e <= |s| && !space(s[k]) && !space(s[e - 1]) && Squeeze(s[k..e], space) == word
  }

  /** The character before `k`, or behind `e`, that is nearest, white space aside, is no
      part of a word. */
  predicate Apart(s: Text, space: int -> bool, k: nat, e: nat)
    requires k <= e <= |s|
  {
    var before, behind := Squeeze(s[..k], space), Squeeze(s[e..], space);
    (before != [] ==> !IsWordChar(before[|before| - 1])) && (behind != [] ==> !IsWordChar(behind[0]))
  }

  /** A call that the check finds: the word, possibly torn apart by white space. */
  ghost predicate FoundCall(s: Text, space: int -> bool, word: Text) {
    exists k: nat, e: nat :: Spans(s, space, word, k, e) && Apart(s, space, k, e)
  }

  /** Where a place of the code is in the flattened text. */
  function FlatIndex(s: Text, space: int -> bool, k: nat): nat
    requires k <= |s|
  {
    |Squeeze(s[..k], space)|
  }

  lemma Parts(s: Text, space: int -> bool, k: nat, e: nat)
    requires k <= e <= |s|
    ensures Squeeze(s, space) == Squeeze(s[..k], space) + Squeeze(s[k..e], space) + Squeeze(s[e..], space)
  {
    assert s == s[..k] + s[k..e] + s[e..];
    SqueezeConcat(s[..k] + s[k..e], s[e..], space);
    SqueezeConcat(s[..k], s[k..e], space);
  }

  /** A span of the code is a flattened occurrence, bounded exactly when its neighbours in
      the code, white space aside, are no word characters. */
  lemma SpanIsFlat(s: Text, space: int -> bool, word: Text, k: nat, e: nat)
    requires Spans(s, space, word, k, e)
    ensures At(Squeeze(s, space), word, FlatIndex(s, space, k))
    ensures BoundedAt(Squeeze(s, space), word, FlatIndex(s, space, k)) <==> Apart(s, space, k, e)
  {
    hide Squeeze, IsWordChar;
    Parts(s, space, k, e);
    var flat, before, behind := Squeeze(s, space), Squeeze(s[..k], space), Squeeze(s[e..], space);
    var i := FlatIndex(s, space, k);
    assert flat[i..i + |word|] == word;
    assert i > 0 ==> flat[i - 1] == before[|before| - 1];
    assert i + |word| < |flat| ==> flat[i + |word|] == behind[0];
  }

  /** The place in the code of a flattened index. */
  lemma {:induction false} PlaceOf(s: Text, space: int -> bool, i: nat) returns (k: nat)
    requires i < |Squeeze(s, space)|
    ensures k < |s| && !space(s[k]) && FlatIndex(s, space, k) == i
  {
    var init := s[..|s| - 1];
    if i < |Squeeze(init, space)| {
      k := PlaceOf(init, space, i);
      assert s[..k] == init[..k];
    } else {
      k := |s| - 1;
    }
  }

  lemma {:induction false} SqueezeGrows(s: Text, space: int -> bool, k: nat, e: nat)
    requires k <= e <= |s|
    ensures FlatIndex(s, space, k) <= FlatIndex(s, space, e) <= |Squeeze(s, space)|
    ensures Squeeze(s[k..e], space) == Squeeze(s, space)[FlatIndex(s, space, k)..FlatIndex(s, space, e)]
  {
    hide Squeeze;
    Parts(s, space, k, e);
    assert s[..e] == s[..k] + s[k..e] && s == s[..e] + s[e..];
    SqueezeConcat(s[..k], s[k..e], space);
    SqueezeConcat(s[..e], s[e..], space);
  }

  /** Every flattened occurrence comes from a span of the code. */
  lemma FlatIsSpan(s: Text, space: int -> bool, word: Text, i: nat) returns (k: nat, e: nat)
    requires word != [] && At(Squeeze(s, space), word, i)
    ensures Spans(s, space, word, k, e) && FlatIndex(s, space, k) == i
  {
    k := PlaceOf(s, space, i);
    var last := PlaceOf(s, space, i + |word| - 1);
    e := last + 1;
    assert s[..e][..last] == s[..last] && s[..e] == s[..last] + [s[last]];
    assert FlatIndex(s, space, e) == i + |word|;
    if e <= k {
      SqueezeGrows(s, space, e, k);
    } else {
      SqueezeGrows(s, space, k, e);
    }
  }

  /** The flattened text holds a bounded occurrence exactly when the code holds a span with
      no word next to it. */
  lemma FoundIff(s: Text, space: int -> bool, word: Text)
    requires word != []
    ensures (exists i: nat :: BoundedAt(Squeeze(s, space), word, i)) <==> FoundCall(s, space, word)
  {
    hide Squeeze, Apart, FlatIndex, IsWordChar;
    if i: nat :| BoundedAt(Squeeze(s, space), word, i) {
      var k, e := FlatIsSpan(s, space, word, i);
      SpanIsFlat(s, space, word, k, e);
      assert Spans(s, space, word, k, e) && Apart(s, space, k, e);
    }
    if k: nat, e: nat :| Spans(s, space, word, k, e) && Apart(s, space, k, e) {
      SpanIsFlat(s, space, word, k, e);
    }
  }

  /** White space is in no word and not in this one. */
  ghost predicate Spaceless(space: int -> bool, word: Text) {
    word != [] && (forall i :: 0 <= i < |word| ==> !space(word[i])) && (forall c :: IsWordChar(c) ==> !space(c))
  }

  lemma SqueezeLast(t: Text, space: int -> bool)
    requires t != []
    ensures Squeeze(t, space) == Squeeze(t[..|t| - 1], space) + (if space(t[|t| - 1]) then [] else [t[|t| - 1]])
  {
  }

  lemma {:induction false} SqueezeAll(t: Text, space: int -> bool)
    ensures |Squeeze(t, space)| <= |t|
    ensures |Squeeze(t, space)| == |t| <==> forall i :: 0 <= i < |t| ==> !space(t[i])
    ensures |Squeeze(t, space)| == |t| ==> Squeeze(t, space) == t
  {
    hide Squeeze;
    if t == [] {
      SqueezeNothing(space);
    } else {
      var init, last := t[..|t| - 1], t[|t| - 1];
      SqueezeLast(t, space);
      SqueezeAll(init, space);
      assert t == init + [last];
      assert forall i :: 0 <= i < |init| ==> init[i] == t[i];
    }
  }

  lemma SqueezeNothing(space: int -> bool)
    ensures Squeeze([], space) == []
  {
  }

  /** A call as written is a span. */
  lemma CallSpans(s: Text, space: int -> bool, word: Text, k: nat)
    requires Spaceless(space, word) && At(s, word, k)
    ensures Spans(s, space, word, k, k + |word|)
  {
    var part := s[k..k + |word|];
    assert s[k] == part[0] && s[k + |word| - 1] == part[|word| - 1];
    SqueezeAll(part, space);
  }

  /** A span without white space in it, and without a word next to it, is a call as written. */
  lemma TightSpanIsCall(s: Text, space: int -> bool, word: Text, k: nat)
    requires Spaceless(space, word) && Spans(s, space, word, k, k + |word|) && Apart(s, space, k, k + |word|)
    ensures BoundedAt(s, word, k)
  {
    var e := k + |word|;
    SqueezeAll(s[k..e], space);
    if k > 0 && !space(s[k - 1]) {
      assert s[..k] == s[..k - 1] + [s[k - 1]] && s[..k][..k - 1] == s[..k - 1];
      assert Squeeze(s[..k], space) == Squeeze(s[..k - 1], space) + [s[k - 1]];
    }
    if e < |s| && !space(s[e]) {
      assert s[e..] == [s[e]] + s[e + 1..] && [s[e]][..0] == [];
      SqueezeConcat([s[e]], s[e + 1..], space);
      assert Squeeze([s[e]], space) == [s[e]];
    }
  }

  /** A call as written is found at its own place exactly when no word is next to it, white
      space aside. */
  lemma CallIsFoundIff(s: Text, space: int -> bool, word: Text, k: nat)
    requires Spaceless(space, word) && BoundedAt(s, word, k)
    ensures BoundedAt(Squeeze(s, space), word, FlatIndex(s, space, k)) <==> Apart(s, space, k, k + |word|)
  {
    CallSpans(s, space, word, k);
    SpanIsFlat(s, space, word, k, k + |word|);
  }

  ghost predicate Called(s: Text, word: Text) { exists k: nat :: BoundedAt(s, word, k) }

  /** A call as written with no word next to it, white space aside. */
  ghost predicate CalledApart(s: Text, space: int -> bool, word: Text) {
    exists k: nat :: BoundedAt(s, word, k) && Apart(s, space, k, k + |word|)
  }

  /** The word torn apart by white space, with no word next to it. */
  ghost predicate Torn(s: Text, space: int -> bool, word: Text) {
    exists k: nat, e: nat :: Spans(s, space, word, k, e) && Apart(s, space, k, e) && k + |word| < e
  }

  /** What the check finds: calls as written that no word is next to, and torn words. */
  lemma FoundIsApartOrTorn(s: Text, space: int -> bool, word: Text)
    requires Spaceless(space, word)
    ensures FoundCall(s, space, word) <==> CalledApart(s, space, word) || Torn(s, space, word)
  {
    hide Squeeze, Apart, IsWordChar;
    if FoundCall(s, space, word) {
      var k: nat, e: nat :| Spans(s, space, word, k, e) && Apart(s, space, k, e);
      SpanIsLong(s, space, word, k, e);
      if e == k + |word| { TightSpanIsCall(s, space, word, k); }
    }
    if k: nat :| BoundedAt(s, word, k) && Apart(s, space, k, k + |word|) {
      BoundedIsAt(s, word, k);
      CallSpans(s, space, word, k);
    }
  }

  /** Nothing but white space, and at least some, separates two word characters. */
  predicate Joined(s: Text, space: int -> bool, i: nat, j: nat) {
    && i + 1 < j < |s| && IsWordChar(s[i]) && IsWordChar(s[j])
    && forall p :: i < p < j ==> space(s[p])
  }

  /** The last character before `k` that is no white space. */
  lemma {:induction false} Before(s: Text, space: int -> bool, k: nat) returns (i: nat)
    requires k <= |s| && Squeeze(s[..k], space) != []
    ensures i < k && !space(s[i]) && Squeeze(s[..k], space)[|Squeeze(s[..k], space)| - 1] == s[i] && forall p :: i < p < k ==> space(s[p])
    decreases k
  {
    SqueezeLast(s[..k], space);
    assert s[..k][..k - 1] == s[..k - 1];
    i := k - 1;
    if space(s[k - 1]) { i := Before(s, space, k - 1); }
  }

  /** The first character from `e` on that is no white space. */
  lemma {:induction false} Behind(s: Text, space: int -> bool, e: nat) returns (j: nat)
    requires e <= |s| && Squeeze(s[e..], space) != []
    ensures e <= j < |s| && !space(s[j]) && Squeeze(s[e..], space)[0] == s[j] && forall p :: e <= p < j ==> space(s[p])
    decreases |s| - e
  {
    SqueezeNothing(space);
    assert s[e..] == [s[e]] + s[e + 1..] && [s[e]][..0] == [];
    SqueezeConcat([s[e]], s[e + 1..], space);
    SqueezeLast([s[e]], space);
    j := e;
    if space(s[e]) { j := Behind(s, space, e + 1); }
  }

  lemma {:induction false} SqueezeHolds(t: Text, space: int -> bool, i: nat)
    requires i < |t| && !space(t[i])
    ensures t[i] in Squeeze(t, space)
    decreases |t|
  {
    hide Squeeze;
    SqueezeLast(t, space);
    if i < |t| - 1 { SqueezeHolds(t[..|t| - 1], space, i); }
  }

  /** A torn name joins two of its characters. */
  lemma TornIsJoined(s: Text, space: int -> bool, word: Text, k: nat, e: nat) returns (i: nat, j: nat)
    requires Spaceless(space, word) && (forall c :: c in word ==> IsWordChar(c))
    requires Spans(s, space, word, k, e) && k + |word| < e
    ensures Joined(s, space, i, j)
  {
    hide Squeeze, IsWordChar;
    var part := s[k..e];
    SqueezeAll(part, space);
    var p :| 0 <= p < |part| && space(part[p]);
    assert part[0] == s[k] && part[|part| - 1] == s[e - 1];
    assert part[..p] != [] && part[..p][0] == s[k] && part[p..][|part[p..]| - 1] == s[e - 1];
    SqueezeHolds(part[..p], space, 0);
    SqueezeHolds(part[p..], space, |part| - p - 1);
    i := Before(part, space, p);
    j := Behind(part, space, p);
    SqueezeHolds(part, space, i);
    SqueezeHolds(part, space, j);
    assert part[i] == s[k + i] && part[j] == s[k + j];
    forall q | k + i < q < k + j ensures space(s[q]) { assert s[q] == part[q - k]; }
    i, j := k + i, k + j;
  }

  /** Where white space separates no two word characters, the check finds a name exactly when
      it is called. */
  lemma FoundIffCalled(s: Text, space: int -> bool, word: Text)
    requires Spaceless(space, word) && (forall c :: c in word ==> IsWordChar(c))
    requires forall i: nat, j: nat :: !Joined(s, space, i, j)
    ensures FoundCall(s, space, word) <==> Called(s, word)
  {
    hide Squeeze, IsWordChar, Joined, Apart;
    FoundIsApartOrTorn(s, space, word);
    if Torn(s, space, word) {
      var k: nat, e: nat :| Spans(s, space, word, k, e) && Apart(s, space, k, e) && k + |word| < e;
      var i, j := TornIsJoined(s, space, word, k, e);
    }
    if k: nat :| BoundedAt(s, word, k) { BoundedIsApart(s, space, word, k); }
  }

  lemma BoundedIsApart(s: Text, space: int -> bool, word: Text, k: nat)
    requires Spaceless(space, word) && (forall c :: c in word ==> IsWordChar(c)) && BoundedAt(s, word, k)
    requires forall i: nat, j: nat :: !Joined(s, space, i, j)
    ensures Apart(s, space, k, k + |word|)
  {
    hide Squeeze, IsWordChar;
    var e := k + |word|;
    assert s[k] == s[k..e][0] && s[e - 1] == s[k..e][|word| - 1];
    if Squeeze(s[..k], space) != [] {
      var i := Before(s, space, k);
      assert !Joined(s, space, i, k);
    }
    if Squeeze(s[e..], space) != [] {
      var j := Behind(s, space, e);
      assert !Joined(s, space, e - 1, j);
    }
  }

  lemma BoundedIsAt(s: Text, word: Text, k: nat)
    requires BoundedAt(s, word, k)
    ensures At(s, word, k)
  {
  }

  lemma SpanIsLong(s: Text, space: int -> bool, word: Text, k: nat, e: nat)
    requires Spans(s, space, word, k, e)
    ensures k + |word| <= e
  {
  }

  // ------------------------------------------------------------------ the check

  /** The test of `check_non_http_owners` on one owner. */
  method CheckOwner(body: Text, space: int -> bool, admit: Text, effects: seq<Text>) returns (verdict: Verdict)
    requires admit != []
    ensures verdict == NotAdmitted <==> !FoundCall(Stripped(body), space, admit)
    ensures verdict == NotAdmitted <==> forall q :: !CalledAt(body, space, admit, q)
    ensures verdict == Admitted ==>
              forall i :: 0 <= i < |effects| ==> !Unadmitted(body, space, admit, Filter(effects[i], c => !space(c)))
    ensures verdict.EffectFirst? ==>
              exists i :: 0 <= i < |effects| && verdict.effect == Filter(effects[i], c => !space(c))
                       && Unadmitted(body, space, admit, verdict.effect)
                       && forall j :: 0 <= j < i ==> !Unadmitted(body, space, admit, Filter(effects[j], c => !space(c)))
  {
    hide Flat, FlatMarks, Find, FindBounded, At, Filter, CalledAt, Unadmitted, Stripped, Squeeze, FoundCall, BoundedAt;
    var stripped := StripRustCommentsAndStrings(body);
    var flat := Filter(stripped, c => !space(c));
    FlatIs(body, space);
    var admitIdx := FindBounded(flat, admit, 0);
    EarlierIffUnadmitted(body, space, admit, []);
    FoundIff(stripped, space, admit);
    SqueezeIs(stripped, space);
    if admitIdx < 0 {
      return NotAdmitted;
    }
    for i := 0 to |effects|
      invariant forall j :: 0 <= j < i ==> !Unadmitted(body, space, admit, Filter(effects[j], c => !space(c)))
    {
      var effect := Filter(effects[i], c => !space(c));
      var effectIdx := Find(flat, effect, 0);
      EarlierIffUnadmitted(body, space, admit, effect);
      if 0 <= effectIdx < admitIdx {
        return EffectFirst(effect);
      }
    }
    return Admitted;
  }

  lemma SqueezeIs(t: Text, space: int -> bool)
    ensures Squeeze(t, space) == Filter(t, c => !space(c))
  {
  }

  lemma FlatIs(t: Text, space: int -> bool)
    ensures Flat(t, space) == Filter(Stripped(t), c => !space(c))
  {
  }

  /** Comments and strings cannot matter: texts with the same code flatten alike. */
  lemma DecoysAreInvisible(a: seq<Segment>, b: seq<Segment>, space: int -> bool)
    requires WellFormed(a) && WellFormed(b) && Codes(a) == Codes(b)
    ensures Flat(Print(a), space) == Flat(Print(b), space)
  {
    StrippedIsCode(a);
    StrippedIsCode(b);
  }

  // ------------------------------------------------------------------ witnesses

  lemma {:induction false} PlainIsStripped(t: Text)
    requires forall i :: 0 <= i < |t| ==> t[i] != DQUOTE && t[i] != SLASH
    ensures Stripped(t) == t
  {
    if t != [] {
      PlainIsStripped(t[1..]);
      assert t == [t[0]] + t[1..];
    }
  }

  predicate AllWord(t: Text) { forall i :: 0 <= i < |t| ==> IsWordChar(t[i]) }

  /** `return name()`. */
  function Returned(name: Text): Text { Lit("return") + [SPACE] + name + [40, 41] }

  lemma ReturnCalls(name: Text)
    requires AllWord(name) && name != []
    ensures Stripped(Returned(name)) == Returned(name) && Called(Returned(name), name)
  {
    hide Stripped, Returned;
    ReturnedChars(name);
    PlainIsStripped(Returned(name));
    assert BoundedAt(Returned(name), name, 7);
  }

  lemma ReturnedChars(name: Text)
    requires AllWord(name)
    ensures var s := Returned(name);
            && |s| == 9 + |name| && s[6] == SPACE && s[7 + |name|] == 40 && At(s, name, 7)
            && forall i :: 0 <= i < |s| ==> s[i] != DQUOTE && s[i] != SLASH
  {
    hide Lit;
    ReturnIsWord();
    var s := Returned(name);
    assert s[7..7 + |name|] == name;
    forall i | 0 <= i < |s| ensures s[i] != DQUOTE && s[i] != SLASH {
      assert s[i] == if i < 6 then Lit("return")[i] else if i == 6 then SPACE else if i < 7 + |name| then name[i - 7] else [40, 41][i - 7 - |name|];
    }
  }

  /** A call right after a keyword, as in `return name()`, is written and not found, whatever
      the name. */
  lemma ReturnHidesCall(name: Text, space: int -> bool)
    requires AllWord(name) && Spaceless(space, name) && space(SPACE) && !space(40) && !space(41)
    ensures Stripped(Returned(name)) == Returned(name)
    ensures Called(Returned(name), name) && !FoundCall(Returned(name), space, name)
  {
    hide Squeeze, FoundCall, Lit, Returned, Called, BoundedAt, IsWordChar, Stripped;
    ReturnCalls(name);
    FoundIff(Returned(name), space, name);
    ReturnedFlat(name, space);
    ReturnIsWord();
    var run := Lit("return") + name;
    assert AllWord(run);
    forall i: nat ensures !BoundedAt(run + [40, 41], name, i) {
      NotInRun(run, name, i);
    }
  }

  lemma ReturnIsWord()
    ensures AllWord(Lit("return"))
  {
  }

  lemma ReturnedFlat(name: Text, space: int -> bool)
    requires AllWord(name) && Spaceless(space, name) && space(SPACE) && !space(40) && !space(41)
    ensures Squeeze(Returned(name), space) == Lit("return") + name + [40, 41]
  {
    hide Squeeze, Lit;
    var word, tail := Lit("return"), [40, 41];
    SqueezeLast([SPACE], space);
    SqueezeNothing(space);
    assert [SPACE][..0] == [];
    ReturnIsWord();
    SqueezeConcat(word + [SPACE] + name, tail, space);
    SqueezeConcat(word + [SPACE], name, space);
    SqueezeConcat(word, [SPACE], space);
    SqueezeAll(word, space);
    SqueezeAll(name, space);
    SqueezeAll(tail, space);
    assert word + [] == word;
  }

  /** A shorter word does not stand whole in a run of word characters. */
  lemma NotInRun(run: Text, name: Text, i: int)
    requires AllWord(run) && AllWord(name) && name != [] && |name| < |run|
    ensures !BoundedAt(run + [40, 41], name, i)
  {
    var s := run + [40, 41];
    if At(s, name, i) {
      assert s[i + |name| - 1] == s[i..i + |name|][|name| - 1] == name[|name| - 1];
      assert i + |name| - 1 < |run|;
    }
  }

  /** A word torn apart by white space is found although it is not called. */
  lemma TornIsFound(space: int -> bool)
    requires space(SPACE) && !space(97) && !space(98) && forall c :: IsWordChar(c) ==> !space(c)
    ensures FoundCall([97, SPACE, 98], space, [97, 98]) && !Called([97, SPACE, 98], [97, 98])
  {
    var s := [97, SPACE, 98];
    assert s[0..3] == s && s[..0] == [] && s[3..] == [] && s[..2] == [97, SPACE] && s[..2][..1] == [97] && [97][..0] == [];
    assert Squeeze([97], space) == [97] && Squeeze([97, SPACE], space) == [97] && Squeeze(s, space) == [97, 98];
    assert Spans(s, space, [97, 98], 0, 3) && Apart(s, space, 0, 3);
    assert s[0..2][1] == SPACE && s[1..3][0] == SPACE;
  }
}
