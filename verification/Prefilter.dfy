/** The raw-text prefilter `could_contain_literal_sequence` (scripts/frontend_imports.py):
    it walks the text once, keeping the set of target offsets that source-ordered literal
    pieces can have reached. */
module Prefilter {
  import opened Text
  import opened JsStrings

  /** Every quote, backtick and closing brace may open a literal piece. */
  predicate Opens(c: int) {
    c == QUOTE || c == DQUOTE || c == BACKTICK || c == RBRACE
  }

  function KindOf(c: int): (k: Kind)
    ensures ValidKind(k)
  {
    if c == QUOTE || c == DQUOTE then Quoted(c) else Template
  }

  /** The cooked characters of the piece opened at `j`. */
  function Piece(text: Text, j: nat): Text
    requires j < |text|
  {
    InPlace(text, j + 1, KindOf(text[j]))
  }

  /** A source-ordered choice of pieces, by the positions that open them. */
  predicate Selection(text: Text, js: seq<nat>) {
    && (forall i :: 0 <= i < |js| ==> js[i] < |text| && Opens(text[js[i]]))
    && (forall i, k :: 0 <= i < k < |js| ==> js[i] < js[k])
  }

  predicate Below(js: seq<nat>, n: nat) {
    forall i :: 0 <= i < |js| ==> js[i] < n
  }

  function Joined(text: Text, js: seq<nat>): Text
    requires Selection(text, js)
  {
    if js == [] then [] else Joined(text, js[..|js| - 1]) + Piece(text, js[|js| - 1])
  }

  /** Some selection opened before `n` joins to exactly `s`. */
  ghost predicate Spells(text: Text, n: nat, s: Text) {
    exists js :: Selection(text, js) && Below(js, n) && Joined(text, js) == s
  }

  /** Some selection opened before `n` joins to a string that starts with `target`. */
  ghost predicate SpellsPrefix(text: Text, n: nat, target: Text) {
    exists js :: Selection(text, js) && Below(js, n) && target <= Joined(text, js)
  }

  /** `prefix` occurs in `target` at `o` and does not finish it. */
  predicate Fits(target: Text, o: nat, prefix: Text) {
    o + |prefix| < |target| && target[o..o + |prefix|] == prefix
  }

  predicate Completes(target: Text, o: nat, s: Text) {
    o <= |target| && target[o..] <= s
  }

  /** Reading one more character `c` of a piece, seen from one offset. */
  lemma FitsExtend(target: Text, o: nat, prefix: Text, c: int, rest: Text)
    requires o < |target| && !Completes(target, o, prefix)
    ensures Fits(target, o, prefix) ==> o + |prefix| < |target|
    ensures Completes(target, o, prefix + [c] + rest) ==> Fits(target, o, prefix) && target[o + |prefix|] == c
    ensures Fits(target, o, prefix + [c]) ==> Fits(target, o, prefix) && target[o + |prefix|] == c
    ensures Fits(target, o, prefix + [c]) ==> o + |prefix| + 1 < |target|
    ensures Fits(target, o, prefix) && target[o + |prefix|] == c && o + |prefix| + 1 < |target| ==> Fits(target, o, prefix + [c])
    ensures Fits(target, o, prefix) && target[o + |prefix|] == c && o + |prefix| + 1 == |target| ==>
              Completes(target, o, prefix + [c]) && Completes(target, o, prefix + [c] + rest)
    ensures Completes(target, o, prefix + [c]) ==> o + |prefix| + 1 == |target| && Fits(target, o, prefix) && target[o + |prefix|] == c
  {
    CompletesExtend(target, o, prefix, c, rest);
    CompletesExtend(target, o, prefix, c, []);
    var longer := prefix + [c];
    assert longer + [] == longer;
    if Fits(target, o, longer) {
      assert target[o..o + |prefix|] == longer[..|prefix|] == prefix;
      assert target[o + |prefix|] == target[o..o + |longer|][|prefix|];
    }
    if Fits(target, o, prefix) && target[o + |prefix|] == c {
      assert target[o..o + |prefix| + 1] == longer;
      if o + |prefix| + 1 == |target| { assert target[o..] == longer; }
    }
    if Completes(target, o, longer) { assert |target[o..]| > |prefix|; }
  }

  lemma CompletesExtend(target: Text, o: nat, prefix: Text, c: int, rest: Text)
    requires o < |target| && !Completes(target, o, prefix)
    ensures Completes(target, o, prefix + [c] + rest) ==> Fits(target, o, prefix) && target[o + |prefix|] == c
  {
    var longer := prefix + [c] + rest;
    if Completes(target, o, longer) {
      var tail := target[o..];
      assert |tail| > |prefix|;
      assert tail[..|prefix|] == longer[..|prefix|] == prefix;
      assert target[o..o + |prefix|] == tail[..|prefix|];
      assert tail[|prefix|] == longer[|prefix|];
    }
  }

  /** Offset `o` of `possible` is finished by the character just consumed. */
  predicate Done(target: Text, possible: set<nat>, consumed: nat) {
    exists o: nat :: o in possible && o + consumed == |target|
  }

  /** Some offset finishes the target inside `s`. */
  predicate AnyCompletes(target: Text, offsets: set<nat>, s: Text) {
    exists o: nat :: o in offsets && Completes(target, o, s)
  }

  /** `possible` holds exactly the offsets that `prefix` fits. */
  ghost predicate Tracks(target: Text, offsets: set<nat>, possible: set<nat>, prefix: Text) {
    forall o: nat :: o in possible <==> o in offsets && Fits(target, o, prefix)
  }

  lemma PossibleStep(target: Text, offsets: set<nat>, possible: set<nat>, next: set<nat>, prefix: Text, c: int, rest: Text)
    requires forall o: nat :: o in offsets ==> o < |target|
    requires Tracks(target, offsets, possible, prefix) && !AnyCompletes(target, offsets, prefix)
    requires forall o: nat :: o in next <==> o in possible && o + |prefix| < |target| && target[o + |prefix|] == c
    ensures next == {} ==> !AnyCompletes(target, offsets, prefix + [c] + rest)
    ensures Done(target, next, |prefix| + 1) ==> AnyCompletes(target, offsets, prefix + [c] + rest)
    ensures !Done(target, next, |prefix| + 1) ==>
              Tracks(target, offsets, next, prefix + [c]) && !AnyCompletes(target, offsets, prefix + [c])
  {
    hide Fits, Completes;
    forall o: nat | o in offsets { FitsExtend(target, o, prefix, c, rest); }
  }

  function Sum(a: Text, b: Text): (s: Text)
    ensures b == [] ==> s == a
    ensures a == [] ==> s == b
  {
    a + b
  }

  lemma SumStep(prefix: Text, value: Option<int>, rest: Text)
    ensures value.None? ==> Sum(prefix, Units(value) + rest) == Sum(prefix, rest)
    ensures value.Some? ==> Sum(prefix, Units(value) + rest) == Sum(prefix + [value.value], rest)
    ensures value.Some? ==> Sum(prefix + [value.value], rest) == prefix + [value.value] + rest
  {
    if value.None? { assert Units(value) + rest == rest; }
    else { assert prefix + ([value.value] + rest) == (prefix + [value.value]) + rest; }
  }

  lemma AtStart(target: Text, offsets: set<nat>)
    requires forall o: nat :: o in offsets ==> o < |target|
    ensures Tracks(target, offsets, offsets, []) && !AnyCompletes(target, offsets, [])
  {
  }

  /** `advance_fragment`: follow every live offset through one piece at once. */
  method AdvanceFragment(text: Text, target: Text, offsets: set<nat>, start: nat, kind: Kind)
    returns (complete: bool, additions: set<nat>)
    requires start <= |text|
    requires forall o: nat :: o in offsets ==> o < |target|
    ensures complete <==> AnyCompletes(target, offsets, InPlace(text, start, kind))
    ensures !complete ==> Additions(target, offsets, additions, InPlace(text, start, kind))
  {
    hide DecodeCharacter, Tracks, AnyCompletes, Additions, Sum;
    var possible := offsets;
    var consumed := 0;
    var cursor := start;
    ghost var prefix: Text := [];
    ghost var piece := InPlace(text, start, kind);
    AtStart(target, offsets);
    ghost var rest := piece;
    while cursor < |text|
      invariant start <= cursor <= |text|
      invariant consumed == |prefix|
      invariant rest == InPlace(text, cursor, kind) && Sum(prefix, rest) == piece
      invariant Tracks(target, offsets, possible, prefix)
      invariant !AnyCompletes(target, offsets, prefix)
    {
      if AtDelimiter(text, cursor, kind) { break; }
      var d := DecodeCharacter(text, cursor);
      cursor := d.next;
      SumStep(prefix, d.value, InPlace(text, d.next, kind));
      rest := InPlace(text, d.next, kind);
      if d.value.None? { continue; }
      var c := d.value.value;
      var next := set o: nat | o in possible && o + consumed < |target| && target[o + consumed] == c;
      PossibleStep(target, offsets, possible, next, prefix, c, rest);
      possible := next;
      if possible == {} {
        NoAdditions(target, offsets, prefix + [c], rest);
        return false, {};
      }
      consumed := consumed + 1;
      prefix := prefix + [c];
      if Done(target, possible, consumed) {
        return true, {};
      }
    }
    assert rest == [];
    complete := false;
    additions := if consumed > 0 then set o: nat | o in possible :: o + consumed else {};
    AdditionsOf(target, offsets, possible, prefix, additions);
  }

  /** The offsets a fully consumed piece adds. */
  ghost predicate Additions(target: Text, offsets: set<nat>, additions: set<nat>, piece: Text) {
    forall p: nat :: p in additions <==>
      |piece| > 0 && p >= |piece| && p - |piece| in offsets && Fits(target, p - |piece|, piece)
  }

  lemma FitsShorter(target: Text, o: nat, a: Text, b: Text)
    requires Fits(target, o, a + b)
    ensures Fits(target, o, a)
  {
    assert target[o..o + |a|] == target[o..o + |a + b|][..|a|] == a;
  }

  lemma NoAdditions(target: Text, offsets: set<nat>, prefix: Text, rest: Text)
    requires Tracks(target, offsets, {}, prefix)
    ensures Additions(target, offsets, {}, prefix + rest)
  {
    forall o: nat | o in offsets && Fits(target, o, prefix + rest) { FitsShorter(target, o, prefix, rest); }
  }

  lemma AdditionsOf(target: Text, offsets: set<nat>, possible: set<nat>, piece: Text, additions: set<nat>)
    requires Tracks(target, offsets, possible, piece)
    requires additions == if |piece| > 0 then set o: nat | o in possible :: o + |piece| else {}
    ensures Additions(target, offsets, additions, piece)
  {
    forall p: nat | |piece| > 0 && p >= |piece| && p - |piece| in possible
      ensures p in additions
    {
      var o: nat := p - |piece|;
      assert o + |piece| in additions;
    }
  }

  // ------------------------------------------------------------- one more opening

  lemma JoinedExtend(text: Text, js: seq<nat>, n: nat)
    requires Selection(text, js) && Below(js, n) && n < |text| && Opens(text[n])
    ensures Selection(text, js + [n]) && Below(js + [n], n + 1)
    ensures Joined(text, js + [n]) == Joined(text, js) + Piece(text, n)
  {
    assert (js + [n])[..|js|] == js;
  }

  /** Offset `o` is live before position `n`: some selection spells exactly `target[..o]`. */
  ghost predicate Live(text: Text, target: Text, n: nat, o: nat) {
    o < |target| && Spells(text, n, target[..o])
  }

  lemma SelectionStep(text: Text, js: seq<nat>, n: nat)
    requires Selection(text, js) && Below(js, n + 1) && n < |text|
    ensures !Below(js, n) ==>
              Opens(text[n]) && js != [] &&
              Selection(text, js[..|js| - 1]) && Below(js[..|js| - 1], n) &&
              Joined(text, js) == Joined(text, js[..|js| - 1]) + Piece(text, n)
  {
    if !Below(js, n) {
      assert js[|js| - 1] == n;
    }
  }

  lemma LiveStep(text: Text, target: Text, n: nat, p: nat)
    requires n < |text|
    ensures var piece := Piece(text, n);
            Live(text, target, n + 1, p) <==>
              Live(text, target, n, p) ||
              (Opens(text[n]) && p >= |piece| && Live(text, target, n, p - |piece|) && Fits(target, p - |piece|, piece))
  {
    hide Live, Fits, Piece, Opens;
    var piece := Piece(text, n);
    if Live(text, target, n + 1, p) && !Live(text, target, n, p) { LiveForward(text, target, n, p); }
    if Live(text, target, n, p) { LiveKept(text, target, n, p); }
    if Opens(text[n]) && p >= |piece| && Live(text, target, n, p - |piece|) && Fits(target, p - |piece|, piece) {
      LiveBack(text, target, n, p - |piece|);
    }
  }

  lemma LiveKept(text: Text, target: Text, n: nat, p: nat)
    requires Live(text, target, n, p)
    ensures Live(text, target, n + 1, p)
  {
    hide Selection, Joined;
    var js :| Selection(text, js) && Below(js, n) && Joined(text, js) == target[..p];
    assert Below(js, n + 1);
  }

  lemma LiveForward(text: Text, target: Text, n: nat, p: nat)
    requires n < |text| && Live(text, target, n + 1, p) && !Live(text, target, n, p)
    ensures var piece := Piece(text, n);
            Opens(text[n]) && p >= |piece| && Live(text, target, n, p - |piece|) && Fits(target, p - |piece|, piece)
  {
    hide Selection, Joined, Piece, Opens, Below;
    var piece := Piece(text, n);
    var js :| Selection(text, js) && Below(js, n + 1) && Joined(text, js) == target[..p];
    SelectionStep(text, js, n);
    var front := js[..|js| - 1];
    var o := p - |piece|;
    assert target[..p][..o] == Joined(text, front);
    assert target[..o] == target[..p][..o];
    assert target[o..p] == target[..p][o..] == piece;
  }

  lemma LiveBack(text: Text, target: Text, n: nat, o: nat)
    requires n < |text| && Opens(text[n]) && Live(text, target, n, o) && Fits(target, o, Piece(text, n))
    ensures Live(text, target, n + 1, o + |Piece(text, n)|)
  {
    hide Selection, Joined, Piece, Opens, Below;
    var p := o + |Piece(text, n)|;
    var js :| Selection(text, js) && Below(js, n) && Joined(text, js) == target[..o];
    JoinedExtend(text, js, n);
    assert target[..p] == target[..o] + target[o..p];
    assert Joined(text, js + [n]) == target[..p];
  }

  /** Some live offset is finished by the piece opened at `n`. */
  ghost predicate Finishes(text: Text, target: Text, n: nat)
    requires n < |text|
  {
    exists o: nat :: Live(text, target, n, o) && Completes(target, o, Piece(text, n))
  }

  lemma PrefixStep(text: Text, target: Text, n: nat)
    requires n < |text| && !SpellsPrefix(text, n, target)
    ensures SpellsPrefix(text, n + 1, target) <==> Opens(text[n]) && Finishes(text, target, n)
  {
    hide Live, SpellsPrefix, Completes;
    if SpellsPrefix(text, n + 1, target) { PrefixStepForward(text, target, n); }
    if Opens(text[n]) && Finishes(text, target, n) {
      var o: nat :| Live(text, target, n, o) && Completes(target, o, Piece(text, n));
      PrefixStepBack(text, target, n, o);
    }
  }

  lemma PrefixStepBack(text: Text, target: Text, n: nat, o: nat)
    requires n < |text| && Opens(text[n]) && Live(text, target, n, o) && Completes(target, o, Piece(text, n))
    ensures SpellsPrefix(text, n + 1, target)
  {
    hide Selection, Joined, Piece, Opens, Below;
    var js :| Selection(text, js) && Below(js, n) && Joined(text, js) == target[..o];
    JoinedExtend(text, js, n);
    PrefixOfJoin(target, o, Piece(text, n));
    assert target <= Joined(text, js + [n]);
  }

  lemma PrefixOfJoin(target: Text, o: nat, piece: Text)
    requires Completes(target, o, piece)
    ensures target <= target[..o] + piece
  {
    assert target == target[..o] + target[o..];
  }

  lemma PrefixStepForward(text: Text, target: Text, n: nat)
    requires n < |text| && !SpellsPrefix(text, n, target) && SpellsPrefix(text, n + 1, target)
    ensures Opens(text[n]) && Finishes(text, target, n)
  {
    var piece := Piece(text, n);
    var js :| Selection(text, js) && Below(js, n + 1) && target <= Joined(text, js);
    SelectionStep(text, js, n);
    var front := Joined(text, js[..|js| - 1]);
    PrefixOfSum(target, front, piece);
    assert Live(text, target, n, |front|) && Completes(target, |front|, piece);
  }

  lemma PrefixOfSum(target: Text, front: Text, piece: Text)
    requires target <= front + piece && !(target <= front)
    ensures |front| < |target| && target[..|front|] == front && target[|front|..] <= piece
  {
    var sum := front + piece;
    assert |front| < |target|;
    assert target[..|front|] == sum[..|front|] == front;
    assert target[|front|..] == sum[..|target|][|front|..] == piece[..|target| - |front|];
  }

  lemma PrefixKept(text: Text, target: Text, n: nat)
    requires n < |text| && SpellsPrefix(text, n, target)
    ensures SpellsPrefix(text, n + 1, target)
  {
    var js :| Selection(text, js) && Below(js, n) && target <= Joined(text, js);
    assert Below(js, n + 1);
  }

  lemma PrefixKeptTo(text: Text, target: Text, n: nat, m: nat)
    requires n <= m <= |text| && SpellsPrefix(text, n, target)
    ensures SpellsPrefix(text, m, target)
    decreases m - n
  {
    if n < m {
      PrefixKept(text, target, n);
      PrefixKeptTo(text, target, n + 1, m);
    }
  }

  lemma Start(text: Text, target: Text)
    requires target != []
    ensures Live(text, target, 0, 0)
    ensures forall o: nat :: Live(text, target, 0, o) ==> o == 0
    ensures !SpellsPrefix(text, 0, target)
  {
    assert Selection(text, []) && Below([], 0) && Joined(text, []) == target[..0];
  }

  /** `could_contain_literal_sequence`: the exact meaning of the prefilter. It accepts iff
      some pieces opened in source order cook and join to a string starting with `target`. */
  method CouldContainLiteralSequence(text: Text, target: Text) returns (found: bool)
    ensures found <==> SpellsPrefix(text, |text|, target)
  {
    if target == [] {
      assert Selection(text, []) && Below([], |text|) && target <= Joined(text, []);
      return true;
    }
    var offsets: set<nat> := {0};
    Start(text, target);
    hide Live, SpellsPrefix, AnyCompletes, Additions, InPlace;
    var index := 0;
    while index < |text|
      invariant 0 <= index <= |text|
      invariant forall o: nat :: o in offsets <==> Live(text, target, index, o)
      invariant !SpellsPrefix(text, index, target)
    {
      LiveIsInside(text, target, index);
      var c := text[index];
      if c == QUOTE || c == DQUOTE || c == BACKTICK {
        var complete, additions := AdvanceFragment(text, target, offsets, index + 1, if c == BACKTICK then Template else Quoted(c));
        AfterPiece(text, target, index, offsets, complete, additions);
        if complete { return true; }
        offsets := offsets + additions;
      }
      if c == RBRACE {
        var complete, additions := AdvanceFragment(text, target, offsets, index + 1, Template);
        AfterPiece(text, target, index, offsets, complete, additions);
        if complete { return true; }
        offsets := offsets + additions;
      }
      if !Opens(c) { AfterOther(text, target, index, offsets); }
      index := index + 1;
    }
    return false;
  }

  lemma LiveIsInside(text: Text, target: Text, n: nat)
    ensures forall o: nat :: Live(text, target, n, o) ==> o < |target|
  {
  }

  lemma AfterPiece(text: Text, target: Text, n: nat, offsets: set<nat>, complete: bool, additions: set<nat>)
    requires n < |text| && Opens(text[n]) && !SpellsPrefix(text, n, target)
    requires forall o: nat :: o in offsets <==> Live(text, target, n, o)
    requires complete <==> AnyCompletes(target, offsets, Piece(text, n))
    requires !complete ==> Additions(target, offsets, additions, Piece(text, n))
    ensures complete ==> SpellsPrefix(text, |text|, target)
    ensures !complete ==> !SpellsPrefix(text, n + 1, target)
    ensures !complete ==> forall p: nat :: p in offsets + additions <==> Live(text, target, n + 1, p)
  {
    hide Live, SpellsPrefix, Completes, Fits, Piece;
    PrefixStep(text, target, n);
    if complete {
      PrefixKeptTo(text, target, n + 1, |text|);
    } else {
      forall p: nat
        ensures p in offsets + additions <==> Live(text, target, n + 1, p)
      {
        LiveStep(text, target, n, p);
      }
    }
  }

  lemma AfterOther(text: Text, target: Text, n: nat, offsets: set<nat>)
    requires n < |text| && !Opens(text[n]) && !SpellsPrefix(text, n, target)
    requires forall o: nat :: o in offsets <==> Live(text, target, n, o)
    ensures !SpellsPrefix(text, n + 1, target)
    ensures forall p: nat :: p in offsets <==> Live(text, target, n + 1, p)
  {
    PrefixStep(text, target, n);
    forall p: nat
      ensures p in offsets <==> Live(text, target, n + 1, p)
    {
      LiveStep(text, target, n, p);
    }
  }
}
