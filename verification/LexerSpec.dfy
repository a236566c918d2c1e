/** What the TypeScript lexer (scripts/frontend_imports.py) guarantees: what each token says,
    what is covered, and when an interpolation raises. */
module LexerSpec {
  import opened Text
  import opened JsStrings
  import opened Prefilter
  import opened Tokens
  import opened ConstEval
  import opened Assembly
  import opened LexerLines
  import opened Identifiers
  import opened LexerMachine

  // ------------------------------------------------------------------ coverage

  /** Text the lexer may pass over without a token. */
  ghost predicate SkippedSpan(o: Setting, text: Text, passed: seq<Stretch>, lo: nat, hi: nat) {
    lo < hi <= |text| &&
    (LineComment(text, lo, hi) || BlockComment(text, lo, hi) || Regex(lo, hi) in passed ||
     (o.jsx && text[lo] == LESS))
  }

  ghost predicate LineComment(text: Text, lo: nat, hi: nat) {
    && lo + 1 < hi <= |text| && text[lo] == SLASH && text[lo + 1] == SLASH
    && (forall k :: lo <= k < hi ==> text[k] != LF) && (hi < |text| ==> text[hi] == LF)
  }

  ghost predicate BlockComment(text: Text, lo: nat, hi: nat) {
    && lo + 1 < hi <= |text| && text[lo] == SLASH && text[lo + 1] == STAR
    && (forall k :: lo + 2 <= k < hi - 2 ==> !StarSlash(text, k))
    && (hi < |text| ==> hi >= lo + 4 && StarSlash(text, hi - 2))
  }

  ghost predicate Covered(o: Setting, text: Text, passed: seq<Stretch>, tokens: seq<Token>, from: nat, p: nat)
    requires p < |text|
  {
    || o.space(text[p])
    || (exists t :: t in tokens && t.start <= p < t.end)
    || (exists lo: nat, hi: nat :: from <= lo <= p < hi && SkippedSpan(o, text, passed, lo, hi))
  }

  /** Every position of `lo..hi` is white space, inside one of these tokens, or inside a
      skipped span that starts there. */
  ghost predicate Covers(o: Setting, text: Text, passed: seq<Stretch>, tokens: seq<Token>, lo: nat, hi: nat) {
    forall p: nat :: lo <= p < hi && p < |text| ==> Covered(o, text, passed, tokens, lo, p)
  }

  lemma SkippedStays(o: Setting, text: Text, passed: seq<Stretch>, more: seq<Stretch>, lo: nat, hi: nat)
    requires SkippedSpan(o, text, passed, lo, hi) && forall s :: s in passed ==> s in more
    ensures SkippedSpan(o, text, more, lo, hi)
  {
  }

  lemma CoveredStays(o: Setting, text: Text, passed: seq<Stretch>, more: seq<Stretch>, small: seq<Token>, large: seq<Token>,
                     from: nat, earlier: nat, p: nat)
    requires p < |text| && earlier <= from && Covered(o, text, passed, small, from, p)
    requires forall t :: t in small ==> t in large
    requires forall s :: s in passed ==> s in more
    ensures Covered(o, text, more, large, earlier, p)
  {
    hide SkippedSpan;
    if l: nat, h: nat :| from <= l <= p < h && SkippedSpan(o, text, passed, l, h) {
      SkippedStays(o, text, passed, more, l, h);
    }
  }

  lemma CoversToken(o: Setting, text: Text, passed: seq<Stretch>, tokens: seq<Token>, t: Token, lo: nat, hi: nat)
    requires t in tokens && t.start <= lo && hi <= t.end
    ensures Covers(o, text, passed, tokens, lo, hi)
  {
  }

  lemma CoversSkipped(o: Setting, text: Text, passed: seq<Stretch>, tokens: seq<Token>, lo: nat, hi: nat)
    requires SkippedSpan(o, text, passed, lo, hi)
    ensures Covers(o, text, passed, tokens, lo, hi)
  {
  }

  lemma CoversSpace(o: Setting, text: Text, passed: seq<Stretch>, tokens: seq<Token>, p: nat)
    requires p < |text| && o.space(text[p])
    ensures Covers(o, text, passed, tokens, p, p + 1)
  {
  }

  /** Scanning on: what was covered stays covered, and the new stretch is covered too. */
  lemma CoversOn(o: Setting, text: Text, passed: seq<Stretch>, more: seq<Stretch>, first: seq<Token>, second: seq<Token>,
                 lo: nat, mid: nat, hi: nat)
    requires lo <= mid && Covers(o, text, passed, first, lo, mid) && Covers(o, text, more, second, mid, hi)
    requires forall s :: s in passed ==> s in more
    ensures Covers(o, text, more, first + second, lo, hi)
  {
    hide Covered;
    forall p: nat | lo <= p < hi && p < |text| ensures Covered(o, text, more, first + second, lo, p) {
      if p < mid {
        CoveredStays(o, text, passed, more, first, first + second, lo, lo, p);
      } else {
        CoveredStays(o, text, more, more, second, first + second, mid, lo, p);
      }
    }
  }

  lemma CoversNothing(o: Setting, text: Text, passed: seq<Stretch>, tokens: seq<Token>, i: nat)
    ensures Covers(o, text, passed, tokens, i, i)
  {
  }

  // ------------------------------------------------------------------ braces

  /** What a token adds to the depth of braces. */
  function Brace(t: Token): int {
    if t.kind == Punctuation && t.value == [LBRACE] then 1
    else if t.kind == Punctuation && t.value == [RBRACE] then -1
    else 0
  }

  function Braces(run: seq<Token>): int {
    if run == [] then 0 else Braces(run[..|run| - 1]) + Brace(run[|run| - 1])
  }

  /** No brace closes what was not opened in the run. */
  ghost predicate NeverBelow(run: seq<Token>) {
    forall k :: 0 <= k <= |run| ==> Braces(run[..k]) >= 0
  }

  /** No brace closes too much, and when the run is `whole` it ends at `depth`. */
  ghost predicate Level(run: seq<Token>, depth: int, whole: bool) {
    NeverBelow(run) && (whole ==> Braces(run) == depth)
  }

  lemma {:induction false} BracesConcat(a: seq<Token>, b: seq<Token>)
    ensures Braces(a + b) == Braces(a) + Braces(b)
    decreases |b|
  {
    if b == [] {
      assert a + b == a;
    } else {
      assert (a + b)[..|a + b| - 1] == a + b[..|b| - 1];
      BracesConcat(a, b[..|b| - 1]);
    }
  }

  lemma LevelConcat(a: seq<Token>, b: seq<Token>, m: int, n: int, whole: bool)
    requires Level(a, m, true) && Level(b, n, whole)
    ensures Level(a + b, m + n, whole)
  {
    BracesConcat(a, b);
    assert a[..|a|] == a;
    forall k | 0 <= k <= |a + b| ensures Braces((a + b)[..k]) >= 0 {
      if k <= |a| {
        assert (a + b)[..k] == a[..k];
      } else {
        assert (a + b)[..k] == a + b[..k - |a|];
        BracesConcat(a, b[..k - |a|]);
      }
    }
  }

  lemma LevelOne(a: seq<Token>, t: Token, m: int, whole: bool)
    requires Level(a, m, true) && m + Brace(t) >= 0
    ensures Level(a + [t], m + Brace(t), whole)
  {
    var longer := a + [t];
    assert longer[..|longer| - 1] == a;
    forall k | 0 <= k <= |longer| ensures Braces(longer[..k]) >= 0 {
      if k <= |a| { assert longer[..k] == a[..k]; } else { assert longer[..k] == longer; }
    }
  }

  lemma LevelFirst(t: Token, b: seq<Token>, n: int, whole: bool)
    requires Brace(t) == 0 && Level(b, n, whole)
    ensures Level([t] + b, n, whole)
  {
    LevelOne([], t, 0, true);
    assert [] + [t] == [t];
    LevelConcat([t], b, 0, n, whole);
  }

  /** Scanning on keeps the level. */
  lemma LevelOn(start: seq<Token>, before: seq<Token>, after: seq<Token>, m: int, n: int, whole: bool)
    requires |start| <= |before| <= |after| && after[..|before|] == before
    requires Level(before[|start|..], m, true) && Level(after[|before|..], n, whole)
    ensures Level(after[|start|..], m + n, whole)
  {
    hide Level;
    assert after == before + after[|before|..];
    assert after[|start|..] == before[|start|..] + after[|before|..];
    LevelConcat(before[|start|..], after[|before|..], m, n, whole);
  }

  lemma LevelNothing(tokens: seq<Token>, whole: bool)
    ensures Level(tokens[|tokens|..], 0, whole)
  {
    assert tokens[|tokens|..] == [];
  }

  lemma LevelMore(start: seq<Token>, before: seq<Token>, t: Token, m: int, whole: bool)
    requires |start| <= |before| && Level(before[|start|..], m, true) && m + Brace(t) >= 0
    ensures Level((before + [t])[|start|..], m + Brace(t), whole)
  {
    hide Level;
    assert (before + [t])[|start|..] == before[|start|..] + [t];
    LevelOne(before[|start|..], t, m, whole);
  }

  // ------------------------------------------------------------------ what tokens say

  /** One interpolation: the piece before it, its `${`, and how many tokens it holds. */
  datatype Hole = Hole(opener: nat, dollar: nat, count: nat)

  /** The pieces and interpolations of a template opened at `start`, up to the piece opened
      at `opener`; `inner` lists the tokens of the interpolations in order. */
  ghost predicate HolesOk(o: Setting, text: Text, start: nat, holes: seq<Hole>, inner: seq<Token>, opener: nat) {
    opener < |text| &&
    if holes == [] then inner == [] && opener == start
    else
      var h := holes[|holes| - 1];
      && h.count <= |inner| && h.opener < h.dollar && h.dollar + 2 <= opener && text[opener] == RBRACE
      && RawEnd(text, h.opener + 1, Template) == h.dollar
      && AtDelimiter(text, h.dollar, Template) && text[h.dollar] == DOLLAR
      && HoleRun(o, text, inner[|inner| - h.count..], h.dollar + 2, opener)
      && HolesOk(o, text, start, holes[..|holes| - 1], inner[..|inner| - h.count], h.opener)
  }

  /** The tokens of an interpolation: they fill it, their braces close what they open, and
      evaluating them does not raise. */
  ghost predicate HoleRun(o: Setting, text: Text, run: seq<Token>, lo: nat, hi: nat) {
    Within(run, lo, hi) && Fills(o, text, run, lo, hi) && Level(run, 0, true) && Convertible(o.py, run)
  }

  /** In `lo..hi` nothing is outside these tokens but white space and skipped spans. */
  ghost predicate Fills(o: Setting, text: Text, run: seq<Token>, lo: nat, hi: nat) {
    exists passed :: StretchesOk(o, text, passed) && Covers(o, text, passed, run, lo, hi)
  }

  /** The template opened at `start` is not closed: its last piece runs to the end of the
      text, or its last interpolation does, with no brace to close it. */
  ghost predicate Unterminated(o: Setting, text: Text, start: nat)
    decreases |text| - start
  {
    && start < |text| && text[start] == BACKTICK
    && ((exists holes, inner, opener: nat :: OpenPiece(o, text, start, holes, inner, opener)) ||
        (exists opener: nat, run, cut: nat :: OpenHole(o, text, start, opener, run, cut) && (cut == |text| || Unterminated(o, text, cut))))
  }

  ghost predicate OpenPiece(o: Setting, text: Text, start: nat, holes: seq<Hole>, inner: seq<Token>, opener: nat) {
    HolesOk(o, text, start, holes, inner, opener) && RawEnd(text, opener + 1, Template) == |text|
  }

  ghost predicate OpenHole(o: Setting, text: Text, start: nat, opener: nat, run: seq<Token>, cut: nat) {
    && start <= opener < |text|
    && (exists holes, inner :: HolesOk(o, text, start, holes, inner, opener))
    && var dollar := RawEnd(text, opener + 1, Template);
       && dollar + 2 <= cut <= |text| && AtDelimiter(text, dollar, Template) && text[dollar] == DOLLAR
       && NeverBelow(run) && Fills(o, text, run, dollar + 2, cut) && Good(o, text, run, dollar + 2, |text|)
  }

  /** What the pieces and interpolations so far spell, when every interpolation is constant. */
  function HolesText(o: Setting, text: Text, holes: seq<Hole>, inner: seq<Token>): Option<Text>
    decreases |holes|
  {
    if holes == [] then Some([])
    else
      var h := holes[|holes| - 1];
      if h.count > |inner| || h.opener >= |text| then None
      else
        var front := HolesText(o, text, holes[..|holes| - 1], inner[..|inner| - h.count]);
        var v := InterpolationText(o.py, inner[|inner| - h.count..]);
        if front.None? || v.None? then None else Some(front.value + Piece(text, h.opener) + v.value)
  }

  /** An interpolated template is constant exactly when all its interpolations are, and then
      its value is the concatenation of its cooked pieces and stringified interpolations. */
  ghost predicate Interpolates(o: Setting, text: Text, t: Token, inner: seq<Token>, holes: seq<Hole>, opener: nat) {
    && t.start >= 0 && holes != [] && HolesOk(o, text, t.start, holes, inner, opener)
    && t.start < |text| && text[t.start] == BACKTICK
    && (var e := RawEnd(text, opener + 1, Template); e < |text| && text[e] == BACKTICK && t.end == e + 1)
    && var front := HolesText(o, text, holes, inner);
       if front.Some? then t.kind.ConstantTemplate? && t.value == front.value + Piece(text, opener)
       else t.kind.ComputedTemplate? && t.value == []
  }

  /** A quoted string, or a closed template without interpolations: its cooked body. */
  ghost predicate Quotes(text: Text, t: Token) {
    && 0 <= t.start < |text| && OpensLiteral(text[t.start])
    && t.value == Piece(text, t.start)
    && var e := RawEnd(text, t.start + 1, KindOf(text[t.start]));
       && t.end == (if e < |text| then e + 1 else e)
       && (text[t.start] == BACKTICK ==> e < |text| && text[e] == BACKTICK)
  }

  predicate OpensLiteral(c: int) { c == QUOTE || c == DQUOTE || c == BACKTICK }

  /** A single character that opens no literal and no identifier. A slash stands only where
      the tokens before it let no expression start. */
  ghost predicate Marks(o: Setting, text: Text, t: Token) {
    && 0 <= t.start < |text| && t.value == [text[t.start]] && t.end == t.start + 1
    && !o.space(text[t.start]) && !OpensLiteral(text[t.start]) && !StartsIdentifier(o, text, t.start)
    && (text[t.start] == SLASH ==> Guessed(o, text, t.start, false))
  }

  /** A longest identifier. */
  ghost predicate Names(o: Setting, text: Text, t: Token) {
    && 0 <= t.start < t.end <= |text| && !OpensLiteral(text[t.start])
    && SpellsIdentifier(o, text, t.start, t.end, t.value)
    && (t.end < |text| ==> !ContinuesIdentifier(o, text, t.end))
  }

  /** Token `i` says what its span spells; an interpolated template, what its inner tokens say. */
  ghost predicate Explained(o: Setting, text: Text, tokens: seq<Token>, i: nat)
    requires i < |tokens|
  {
    var t := tokens[i];
    match t.kind
    case StringToken => Quotes(text, t)
    case Identifier => Names(o, text, t)
    case Punctuation => Marks(o, text, t)
    case _ => exists m: nat, holes, opener: nat :: InterpolatesUpTo(o, text, tokens, i, m, holes, opener)
  }

  /** The tokens inside template token `i` are those before index `m`: its interpolations'. */
  ghost predicate InterpolatesUpTo(o: Setting, text: Text, tokens: seq<Token>, i: nat, m: nat, holes: seq<Hole>, opener: nat) {
    && i < m <= |tokens| && (m < |tokens| ==> tokens[i].end <= tokens[m].start)
    && Interpolates(o, text, tokens[i], tokens[i + 1..m], holes, opener)
  }

  ghost predicate AllExplained(o: Setting, text: Text, tokens: seq<Token>) {
    forall i :: 0 <= i < |tokens| ==> Explained(o, text, tokens, i)
  }

  /** Growing the list at either end explains the same tokens. */
  lemma ExplainedShift(o: Setting, text: Text, tokens: seq<Token>, i: nat, front: seq<Token>, back: seq<Token>)
    requires i < |tokens| && Explained(o, text, tokens, i) && forall t :: t in back ==> tokens[i].end <= t.start
    ensures Explained(o, text, front + tokens + back, |front| + i)
  {
    hide Interpolates, Quotes, Names, Marks;
    var all := front + tokens + back;
    assert all[|front| + i] == tokens[i];
    if IsTemplate(tokens[i]) {
      var m: nat, holes, opener: nat :| InterpolatesUpTo(o, text, tokens, i, m, holes, opener);
      assert all[|front| + i + 1..|front| + m] == tokens[i + 1..m];
      assert InterpolatesUpTo(o, text, all, |front| + i, |front| + m, holes, opener);
    }
  }

  lemma ExplainedConcat(o: Setting, text: Text, a: seq<Token>, b: seq<Token>)
    requires AllExplained(o, text, a) && AllExplained(o, text, b) && forall t, u :: t in a && u in b ==> t.end <= u.start
    ensures AllExplained(o, text, a + b)
  {
    hide Explained;
    forall i | 0 <= i < |a + b| ensures Explained(o, text, a + b, i) {
      if i < |a| {
        ExplainedShift(o, text, a, i, [], b);
        assert [] + a + b == a + b;
      } else {
        ExplainedShift(o, text, b, i - |a|, a, []);
        assert a + b + [] == a + b;
      }
    }
  }

  /** Newly scanned tokens: nested spans inside `lo..hi`, explained, with sourced values. */
  ghost predicate Good(o: Setting, text: Text, added: seq<Token>, lo: int, hi: int) {
    && 0 <= lo <= hi <= |text|
    && Nested(added) && Within(added, lo, hi)
    && (forall i :: 0 <= i < |added| ==> Sourced(o.py, text, added[i]))
    && AllExplained(o, text, added)
  }

  ghost predicate Extends(o: Setting, text: Text, before: seq<Token>, after: seq<Token>, lo: int, hi: int) {
    |before| <= |after| && after[..|before|] == before && Good(o, text, after[|before|..], lo, hi)
  }

  lemma ExtendsNothing(o: Setting, text: Text, tokens: seq<Token>, lo: int, hi: int)
    requires 0 <= lo <= hi <= |text|
    ensures Extends(o, text, tokens, tokens, lo, hi)
  {
  }

  lemma ExtendsWiden(o: Setting, text: Text, before: seq<Token>, after: seq<Token>, lo: int, hi: int, lo': int, hi': int)
    requires Extends(o, text, before, after, lo, hi) && 0 <= lo' <= lo && hi <= hi' <= |text|
    ensures Extends(o, text, before, after, lo', hi')
  {
    hide Sourced, AllExplained;
  }

  lemma ExtendsTwice(o: Setting, text: Text, a: seq<Token>, b: seq<Token>, c: seq<Token>, lo: int, mid: int, hi: int)
    requires Extends(o, text, a, b, lo, mid) && Extends(o, text, b, c, mid, hi)
    ensures Extends(o, text, a, c, lo, hi)
  {
    hide Good;
    var first, second := b[|a|..], c[|b|..];
    assert c[..|a|] == c[..|b|][..|a|] == a;
    assert c == c[..|b|] + second;
    assert c[|a|..] == first + second;
    GoodConcat(o, text, first, second, lo, mid, hi);
  }

  lemma GoodConcat(o: Setting, text: Text, first: seq<Token>, second: seq<Token>, lo: int, mid: int, hi: int)
    requires Good(o, text, first, lo, mid) && Good(o, text, second, mid, hi)
    ensures Good(o, text, first + second, lo, hi)
  {
    hide Sourced, AllExplained;
    var all := first + second;
    forall i, j | 0 <= i < j < |all| ensures Tokens.Follows(all[i], all[j]) {
      if j < |first| { assert Tokens.Follows(first[i], first[j]); }
      else if i >= |first| { assert Tokens.Follows(second[i - |first|], second[j - |first|]); }
      else { assert first[i].end <= mid <= second[j - |first|].start && first[i].start < first[i].end; }
    }
    forall t, u | t in first && u in second ensures t.end <= u.start {
      var i :| 0 <= i < |first| && first[i] == t;
      var j :| 0 <= j < |second| && second[j] == u;
    }
    ExplainedConcat(o, text, first, second);
  }

  lemma ExtendsOne(o: Setting, text: Text, before: seq<Token>, t: Token)
    requires 0 <= t.start < t.end <= |text| && Sourced(o.py, text, t) && Explained(o, text, [t], 0)
    ensures Extends(o, text, before, before + [t], t.start, t.end)
  {
    hide Explained;
    assert (before + [t])[|before|..] == [t];
  }

  /** Putting an enclosing template token in front of the tokens of its interpolations. */
  lemma ExtendsTemplate(o: Setting, text: Text, before: seq<Token>, after: seq<Token>, t: Token, lo: int, hi: int,
                        holes: seq<Hole>, opener: nat)
    requires Extends(o, text, before, after, lo, hi)
    requires 0 <= t.start < lo && hi < t.end <= |text|
    requires IsTemplate(t) && Sourced(o.py, text, t)
    requires Interpolates(o, text, t, after[|before|..], holes, opener)
    ensures Extends(o, text, before, after[..|before|] + [t] + after[|before|..], t.start, t.end)
  {
    hide Sourced, Interpolates, Explained;
    var inner := after[|before|..];
    var result := after[..|before|] + [t] + inner;
    assert result[..|before|] == before;
    assert result[|before|..] == [t] + inner;
    var added := [t] + inner;
    forall i, j | 0 <= i < j < |added| ensures Tokens.Follows(added[i], added[j]) {
      if i > 0 { assert Tokens.Follows(inner[i - 1], inner[j - 1]); }
      else { assert lo <= inner[j - 1].start && inner[j - 1].end <= hi; }
    }
    forall i | 0 <= i < |added| ensures Sourced(o.py, text, added[i]) {
      if i > 0 { assert added[i] == inner[i - 1]; }
    }
    ExplainedTemplate(o, text, t, inner, holes, opener);
  }

  lemma ExplainedTemplate(o: Setting, text: Text, t: Token, inner: seq<Token>, holes: seq<Hole>, opener: nat)
    requires IsTemplate(t) && Interpolates(o, text, t, inner, holes, opener) && AllExplained(o, text, inner)
    ensures AllExplained(o, text, [t] + inner)
  {
    hide Interpolates, Quotes, Names, Marks;
    var all := [t] + inner;
    assert all[0 + 1..|all|] == inner;
    assert InterpolatesUpTo(o, text, all, 0, |all|, holes, opener);
    assert Explained(o, text, all, 0);
    forall i | 0 < i < |all| ensures Explained(o, text, all, i) {
      ExplainedShift(o, text, inner, i - 1, [t], []);
      assert [t] + inner + [] == all;
    }
  }

  // ------------------------------------------------------------------ evaluated runs

  /** The tokens of one interpolation, at the moment it was evaluated. */
  datatype Run = Run(dollar: nat, hi: nat, tokens: seq<Token>)

  ghost predicate RunOk(o: Setting, text: Text, r: Run) {
    && r.dollar + 2 <= r.hi <= |text| && text[r.dollar] == DOLLAR && text[r.dollar + 1] == LBRACE
    && Good(o, text, r.tokens, r.dollar + 2, r.hi) && Evaluates(o, text, r.hi, r.tokens)
  }

  /** Scanning raised in the last run evaluated, or in none. */
  ghost predicate RunsOk(o: Setting, text: Text, runs: seq<Run>, raised: bool) {
    && (forall i :: 0 <= i < |runs| ==> RunOk(o, text, runs[i]))
    && (forall i :: 0 <= i < |runs| - 1 ==> Convertible(o.py, runs[i].tokens))
    && (raised <==> runs != [] && !Convertible(o.py, runs[|runs| - 1].tokens))
  }

  /** Scanning raises exactly when one of the runs does not convert. */
  lemma RaisedIff(o: Setting, text: Text, runs: seq<Run>, raised: bool)
    requires RunsOk(o, text, runs, raised)
    ensures raised <==> exists i :: 0 <= i < |runs| && !Convertible(o.py, runs[i].tokens)
  {
  }

  /** A run does not convert exactly when Python refuses a step of its evaluation, or the
      string of its value. */
  lemma ConvertsIff(py: Python, run: seq<Token>)
    ensures !Convertible(py, run) <==>
            AnyRefused(py, Steps(py, run)) ||
            (ConstantExpressionValue(py, run).Known? && JavascriptString(py, ConstantExpressionValue(py, run).v).None?)
  {
    hide AnyRefused, Steps, ConstantExpressionValue;
    RaisesIff(py, run);
  }

  lemma RunsMore(o: Setting, text: Text, runs: seq<Run>, r: Run)
    requires RunsOk(o, text, runs, false) && RunOk(o, text, r)
    ensures RunsOk(o, text, runs + [r], !Convertible(o.py, r.tokens))
  {
    hide Convertible, RunOk;
    forall i | 0 <= i < |runs| ensures Convertible(o.py, (runs + [r])[i].tokens) {
      assert (runs + [r])[i] == runs[i];
      if i == |runs| - 1 { assert Convertible(o.py, runs[|runs| - 1].tokens); }
    }
  }

  lemma PunctuationIsExplained(o: Setting, text: Text, t: Token)
    requires Marks(o, text, t) && t.kind == Punctuation
    ensures 0 <= t.start < t.end <= |text| && Sourced(o.py, text, t) && Explained(o, text, [t], 0)
  {
  }

  lemma IdentifierIsExplained(o: Setting, text: Text, t: Token)
    requires Names(o, text, t) && t.kind == Identifier
    ensures Sourced(o.py, text, t) && Explained(o, text, [t], 0)
  {
  }

  lemma QuotedPiece(text: Text, start: nat, raw: Text)
    requires start < |text| && (text[start] == QUOTE || text[start] == DQUOTE)
    requires raw == text[start + 1..RawEnd(text, start + 1, Quoted(text[start]))]
    ensures Piece(text, start) == Cook(raw, 0)
  {
    hide InPlace, DecodeCharacter, Cook, RawEnd;
    InPlaceIsCookedSlice(text, start + 1, start + 1, RawEnd(text, start + 1, Quoted(text[start])), Quoted(text[start]));
  }

  lemma QuotedIsSourced(o: Setting, text: Text, start: nat, raw: Text, t: Token)
    requires start < |text| && (text[start] == QUOTE || text[start] == DQUOTE)
    requires var e := RawEnd(text, start + 1, Quoted(text[start]));
             raw == text[start + 1..e] && t.end == if e < |text| then e + 1 else e
    requires t.kind == StringToken && t.start == start && t.value == Cook(raw, 0)
    ensures start < t.end <= |text| && Sourced(o.py, text, t) && Explained(o, text, [t], 0)
  {
    hide Piece, RawEnd, Cook, Assembled, Interpolates;
    QuotedPiece(text, start, raw);
    AssembledLiteral(o.py, text, start, t.end, start);
  }

  /** Scanning reached `hi`: everything is covered, but for a template that is not closed. */
  ghost predicate Reaches(o: Setting, text: Text, passed: seq<Stretch>, added: seq<Token>, lo: nat, hi: nat) {
    exists cut: nat :: lo <= cut <= hi && Covers(o, text, passed, added, lo, cut) && CutOff(o, text, cut, hi)
  }

  ghost predicate CutOff(o: Setting, text: Text, cut: nat, hi: nat) {
    cut == hi || (hi == |text| && Unterminated(o, text, cut))
  }

  /** All that is known of a stretch of scanning: tokens, coverage and stretches passed. */
  ghost predicate Scanned(o: Setting, text: Text, passed: seq<Stretch>, more: seq<Stretch>,
                          before: seq<Token>, after: seq<Token>, lo: nat, hi: nat) {
    && Extends(o, text, before, after, lo, hi) && Grows(passed, more, lo)
    && Reaches(o, text, more, after[|before|..], lo, hi)
  }

  lemma ScannedGrows(o: Setting, text: Text, passed: seq<Stretch>, more: seq<Stretch>, before: seq<Token>, after: seq<Token>, lo: nat, hi: nat)
    requires Scanned(o, text, passed, more, before, after, lo, hi)
    ensures |before| <= |after|
  {
    hide Good, Reaches;
  }

  lemma ScannedNothing(o: Setting, text: Text, passed: seq<Stretch>, tokens: seq<Token>, i: nat)
    requires i <= |text|
    ensures Scanned(o, text, passed, passed, tokens, tokens, i, i)
  {
    ExtendsNothing(o, text, tokens, i, i);
    ReachesAll(o, text, passed, [], i, i);
  }

  lemma ReachesAll(o: Setting, text: Text, passed: seq<Stretch>, added: seq<Token>, lo: nat, hi: nat)
    requires lo <= hi && Covers(o, text, passed, added, lo, hi)
    ensures Reaches(o, text, passed, added, lo, hi)
  {
    hide Covers, Unterminated;
    assert CutOff(o, text, hi, hi);
  }

  /** One stretch of scanning after another. */
  lemma ScanOn(o: Setting, text: Text, p0: seq<Stretch>, p1: seq<Stretch>, p2: seq<Stretch>,
               start: seq<Token>, before: seq<Token>, after: seq<Token>, lo: nat, mid: nat, hi: nat)
    requires lo <= mid < |text|
    requires Scanned(o, text, p0, p1, start, before, lo, mid) && Scanned(o, text, p1, p2, before, after, mid, hi)
    ensures Scanned(o, text, p0, p2, start, after, lo, hi)
    ensures |start| <= |before| <= |after| && after[..|before|] == before
  {
    hide Good, Reaches, Grows;
    ExtendsTwice(o, text, start, before, after, lo, mid, hi);
    GrowsTwice(p0, p1, p2, lo, mid);
    GrowsKeeps(p1, p2, mid);
    assert after[..|before|] == before && after == before + after[|before|..];
    assert after[|start|..] == before[|start|..] + after[|before|..];
    ReachesOn(o, text, p1, p2, before[|start|..], after[|before|..], lo, mid, hi);
  }

  lemma ReachesOn(o: Setting, text: Text, p1: seq<Stretch>, p2: seq<Stretch>, first: seq<Token>, second: seq<Token>, lo: nat, mid: nat, hi: nat)
    requires lo <= mid < |text| && Reaches(o, text, p1, first, lo, mid) && Reaches(o, text, p2, second, mid, hi)
    requires forall s :: s in p1 ==> s in p2
    ensures Reaches(o, text, p2, first + second, lo, hi)
  {
    hide Covers, Unterminated;
    var cut: nat :| mid <= cut <= hi && Covers(o, text, p2, second, mid, cut) && CutOff(o, text, cut, hi);
    CoversOn(o, text, p1, p2, first, second, lo, mid, cut);
  }

  lemma GrowsKeeps(a: seq<Stretch>, b: seq<Stretch>, lo: nat)
    requires Grows(a, b, lo)
    ensures forall s :: s in a ==> s in b
  {
    assert b == a + b[|a|..];
  }

  /** Nothing was emitted, and the stretch passed over may be. */
  lemma PassOver(o: Setting, text: Text, passed: seq<Stretch>, tokens: seq<Token>, lo: nat, hi: nat)
    requires lo <= hi <= |text| && Covers(o, text, passed, [], lo, hi)
    ensures Scanned(o, text, passed, passed, tokens, tokens, lo, hi)
  {
    hide Covers;
    ExtendsNothing(o, text, tokens, lo, hi);
    ReachesAll(o, text, passed, [], lo, hi);
    assert tokens[|tokens|..] == [];
  }

  /** A regex was passed. */
  lemma PassRegex(o: Setting, text: Text, passed: seq<Stretch>, tokens: seq<Token>, lo: nat, hi: nat)
    requires lo < hi <= |text|
    ensures Scanned(o, text, passed, passed + [Regex(lo, hi)], tokens, tokens, lo, hi)
  {
    hide Covers;
    var more := passed + [Regex(lo, hi)];
    ExtendsNothing(o, text, tokens, lo, hi);
    assert more[|passed|] == Regex(lo, hi) && more[..|passed|] == passed;
    CoversSkipped(o, text, more, [], lo, hi);
    ReachesAll(o, text, more, [], lo, hi);
    assert tokens[|tokens|..] == [];
  }

  /** One token was emitted for all of the stretch. */
  lemma EmitOne(o: Setting, text: Text, passed: seq<Stretch>, more: seq<Stretch>, tokens: seq<Token>, t: Token, lo: nat, hi: nat)
    requires t.start == lo < hi == t.end <= |text| && Sourced(o.py, text, t) && Explained(o, text, [t], 0) && Grows(passed, more, lo)
    ensures Scanned(o, text, passed, more, tokens, tokens + [t], lo, hi)
  {
    hide Explained, Grows, Sourced, Covers;
    ExtendsOne(o, text, tokens, t);
    assert (tokens + [t])[|tokens|..] == [t];
    CoversToken(o, text, more, [t], t, lo, hi);
    ReachesAll(o, text, more, [t], lo, hi);
  }

  /** Tokens and stretches of the inside of a template or a JSX element. */
  ghost predicate Moved(o: Setting, text: Text, passed: seq<Stretch>, more: seq<Stretch>,
                        before: seq<Token>, after: seq<Token>, lo: nat, hi: nat) {
    Extends(o, text, before, after, lo, hi) && Grows(passed, more, lo)
  }

  lemma MovedOn(o: Setting, text: Text, p0: seq<Stretch>, p1: seq<Stretch>, p2: seq<Stretch>,
                start: seq<Token>, before: seq<Token>, after: seq<Token>, lo: nat, mid: nat, from: nat, to: nat, hi: nat)
    requires lo <= mid <= from <= to <= hi <= |text|
    requires Moved(o, text, p0, p1, start, before, lo, mid) && Moved(o, text, p1, p2, before, after, from, to)
    ensures Moved(o, text, p0, p2, start, after, lo, hi) && |start| <= |before| <= |after| && after[..|before|] == before
  {
    hide Good;
    ExtendsWiden(o, text, before, after, from, to, mid, hi);
    ExtendsTwice(o, text, start, before, after, lo, mid, hi);
    GrowsTwice(p0, p1, p2, lo, from);
  }

  lemma MovedWiden(o: Setting, text: Text, p0: seq<Stretch>, p1: seq<Stretch>, start: seq<Token>, tokens: seq<Token>, lo: nat, hi: nat, wide: nat)
    requires hi <= wide <= |text| && Moved(o, text, p0, p1, start, tokens, lo, hi)
    ensures Moved(o, text, p0, p1, start, tokens, lo, wide)
  {
    hide Good;
    ExtendsWiden(o, text, start, tokens, lo, hi, lo, wide);
  }

  /** A quoted attribute is passed. */
  lemma MovedPast(o: Setting, text: Text, p0: seq<Stretch>, p1: seq<Stretch>, p2: seq<Stretch>,
                  start: seq<Token>, tokens: seq<Token>, lo: nat, from: nat, hi: nat)
    requires lo <= from <= hi <= |text| && Moved(o, text, p0, p1, start, tokens, lo, from) && p2 == p1 + [Quote(from, hi)]
    ensures Moved(o, text, p0, p2, start, tokens, lo, hi)
  {
    hide Good;
    assert p2[..|p1|] == p1;
    GrowsTwice(p0, p1, p2, lo, from);
    ExtendsWiden(o, text, start, tokens, lo, from, lo, hi);
  }

  /** The code of an expression in braces was scanned. */
  lemma CodeMoves(o: Setting, text: Text, p0: seq<Stretch>, p1: seq<Stretch>, p2: seq<Stretch>,
                  start: seq<Token>, before: seq<Token>, after: seq<Token>, lo: nat, mid: nat, from: nat, next: nat, closed: bool)
    requires lo <= mid <= from <= next <= |text| && (closed ==> from < next)
    requires Moved(o, text, p0, p1, start, before, lo, mid)
    requires Scanned(o, text, p1, p2, before, after, from, if closed then next - 1 else next)
    ensures Moved(o, text, p0, p2, start, after, lo, next)
    ensures |start| <= |before| <= |after| && after[..|before|] == before
  {
    hide Good, Reaches;
    MovedOn(o, text, p0, p1, p2, start, before, after, lo, mid, from, if closed then next - 1 else next, next);
  }

  lemma MovedNothing(o: Setting, text: Text, passed: seq<Stretch>, tokens: seq<Token>, lo: nat, hi: nat)
    requires lo <= hi <= |text|
    ensures Moved(o, text, passed, passed, tokens, tokens, lo, hi)
  {
    ExtendsNothing(o, text, tokens, lo, hi);
  }

  /** A JSX element is passed over whole, whatever its expressions emitted. */
  lemma PassJsx(o: Setting, text: Text, passed: seq<Stretch>, more: seq<Stretch>, before: seq<Token>, after: seq<Token>, lo: nat, hi: nat)
    requires o.jsx && lo < hi <= |text| && text[lo] == LESS && Moved(o, text, passed, more, before, after, lo, hi)
    ensures Scanned(o, text, passed, more, before, after, lo, hi)
  {
    hide Covers, Good;
    CoversSkipped(o, text, more, after[|before|..], lo, hi);
    ReachesAll(o, text, more, after[|before|..], lo, hi);
  }

  // ------------------------------------------------------------------ template pieces

  /** `raw` is the body, up to `i`, of the template piece opened at `opener`. */
  ghost predicate PieceSoFar(text: Text, opener: nat, i: nat, raw: Text) {
    && opener < i <= |text| && (text[opener] == BACKTICK || text[opener] == RBRACE)
    && raw == text[opener + 1..i]
    && RawEnd(text, i, Template) == RawEnd(text, opener + 1, Template)
  }

  lemma PieceStart(text: Text, opener: nat)
    requires opener < |text| && (text[opener] == BACKTICK || text[opener] == RBRACE)
    ensures PieceSoFar(text, opener, opener + 1, [])
  {
  }

  lemma PieceEscape(text: Text, opener: nat, i: nat, raw: Text)
    requires i + 1 < |text| && PieceSoFar(text, opener, i, raw) && text[i] == BACKSLASH
    ensures PieceSoFar(text, opener, i + 2, raw + [text[i], text[i + 1]])
  {
  }

  lemma PiecePlain(text: Text, opener: nat, i: nat, raw: Text)
    requires i < |text| && PieceSoFar(text, opener, i, raw) && !AtDelimiter(text, i, Template)
    requires text[i] != BACKSLASH || i + 1 >= |text|
    ensures PieceSoFar(text, opener, i + 1, raw + [text[i]])
  {
  }

  lemma PieceDone(text: Text, opener: nat, i: nat, raw: Text)
    requires i < |text| && PieceSoFar(text, opener, i, raw) && AtDelimiter(text, i, Template)
    ensures opener < |text| && Opens(text[opener]) && Piece(text, opener) == Cook(raw, 0)
  {
    hide InPlace, DecodeCharacter;
    assert RawEnd(text, i, Template) == i;
    InPlaceIsCookedSlice(text, opener + 1, opener + 1, i, Template);
  }

  /** What is known of a template while it is scanned: its holes, and what they spell. */
  ghost predicate TemplateSoFar(o: Setting, text: Text, start: nat, holes: seq<Hole>, inner: seq<Token>, opener: nat, constant: bool, cooked: Text) {
    && start <= opener && HolesOk(o, text, start, holes, inner, opener)
    && constant == HolesText(o, text, holes, inner).Some?
    && (constant ==> cooked == HolesText(o, text, holes, inner).value && Assembled(o.py, text, start, opener, cooked))
  }

  lemma TemplateStart(o: Setting, text: Text, start: nat)
    requires start < |text| && text[start] == BACKTICK
    ensures TemplateSoFar(o, text, start, [], [], start, true, []) && PieceSoFar(text, start, start + 1, [])
  {
    AssembledEmpty(o.py, text, start, start);
  }

  /** Closing a piece: its raw body is cooked to the piece at `opener`. */
  lemma ClosedPiece(o: Setting, text: Text, start: nat, holes: seq<Hole>, inner: seq<Token>, opener: nat, i: nat, raw: Text,
                    constant: bool, cooked: Text)
    requires i < |text| && PieceSoFar(text, opener, i, raw) && AtDelimiter(text, i, Template)
    requires TemplateSoFar(o, text, start, holes, inner, opener, constant, cooked)
    ensures RawEnd(text, opener + 1, Template) == i && Piece(text, opener) == Cook(raw, 0)
    ensures constant ==> Assembled(o.py, text, start, i, cooked + Cook(raw, 0))
  {
    hide Assembled, Piece, Cook, AtDelimiter;
    PieceDone(text, opener, i, raw);
    PieceEnd(text, opener, i, raw);
    if constant {
      AssembledLiteral(o.py, text, opener, i, opener);
      AssembledConcat(o.py, text, start, opener, i, cooked, Piece(text, opener));
    }
  }

  lemma PieceEnd(text: Text, opener: nat, i: nat, raw: Text)
    requires i < |text| && PieceSoFar(text, opener, i, raw) && AtDelimiter(text, i, Template)
    ensures RawEnd(text, opener + 1, Template) == i
  {
  }

  lemma ClosedTemplate(o: Setting, text: Text, start: nat, holes: seq<Hole>, inner: seq<Token>, opener: nat, i: nat,
                       constant: bool, cooked: Text, lineno: int)
    requires opener < i < |text| && text[i] == BACKTICK && RawEnd(text, opener + 1, Template) == i
    requires start < |text| && text[start] == BACKTICK
    requires TemplateSoFar(o, text, start, holes, inner, opener, constant, cooked)
    requires constant ==> Assembled(o.py, text, start, i, cooked + Piece(text, opener))
    ensures var t := TemplateToken(holes != [], constant, cooked + Piece(text, opener), lineno, start, i + 1);
            && Sourced(o.py, text, t)
            && (holes != [] ==> Interpolates(o, text, t, inner, holes, opener))
            && (holes == [] ==> inner == [] && Explained(o, text, [t], 0))
  {
    hide Assembled, Piece, RawEnd;
    if constant { AssembledWiden(o.py, text, start, i, start, i + 1, cooked + Piece(text, opener)); }
    if holes == [] { assert [] + Piece(text, start) == Piece(text, start); }
  }

  /** A closed interpolation is one more hole, and the `}` opens the next piece. */
  lemma NextHole(o: Setting, text: Text, start: nat, holes: seq<Hole>, inner: seq<Token>, opener: nat, dollar: nat, i: nat,
                 more: seq<Token>, constant: bool, cooked: Text)
    requires start < dollar && dollar + 2 < i <= |text| && text[i - 1] == RBRACE && opener < dollar
    requires TemplateSoFar(o, text, start, holes, inner, opener, constant, cooked)
    requires RawEnd(text, opener + 1, Template) == dollar && AtDelimiter(text, dollar, Template) && text[dollar] == DOLLAR
    requires constant ==> Assembled(o.py, text, start, dollar, cooked + Piece(text, opener))
    requires HoleRun(o, text, more, dollar + 2, i - 1) && ResultAssembled(o.py, text, dollar + 2, i - 1, ConstantExpressionValue(o.py, more))
    ensures var v := InterpolationText(o.py, more);
            var longer := holes + [Hole(opener, dollar, |more|)];
            var spelled := cooked + Piece(text, opener);
            && (v.None? ==> TemplateSoFar(o, text, start, longer, inner + more, i - 1, false, spelled))
            && (v.Some? ==> TemplateSoFar(o, text, start, longer, inner + more, i - 1, constant, spelled + v.value))
  {
    hide Assembled, ConstantExpressionValue, Piece, JavascriptString, HoleRun, Producible, RawEnd, HolesOk, HolesText;
    HolesGrow(o, text, start, holes, inner, opener, dollar, more, i - 1);
    var v := InterpolationText(o.py, more);
    if constant && v.Some? {
      AssembledWiden(o.py, text, dollar + 2, i - 1, dollar, i - 1, v.value);
      AssembledConcat(o.py, text, start, dollar, i - 1, cooked + Piece(text, opener), v.value);
    }
  }

  lemma HolesGrow(o: Setting, text: Text, start: nat, holes: seq<Hole>, inner: seq<Token>, opener: nat, dollar: nat, more: seq<Token>, next: nat)
    requires HolesOk(o, text, start, holes, inner, opener) && opener < dollar && dollar + 2 <= next < |text| && text[next] == RBRACE
    requires RawEnd(text, opener + 1, Template) == dollar && AtDelimiter(text, dollar, Template) && text[dollar] == DOLLAR
    requires HoleRun(o, text, more, dollar + 2, next)
    ensures var longer := holes + [Hole(opener, dollar, |more|)];
            HolesOk(o, text, start, longer, inner + more, next) &&
            HolesText(o, text, longer, inner + more) ==
              (var front := HolesText(o, text, holes, inner); var v := InterpolationText(o.py, more);
               if front.None? || v.None? then None else Some(front.value + Piece(text, opener) + v.value))
  {
    hide InterpolationText, HoleRun, Piece, RawEnd;
    var longer := holes + [Hole(opener, dollar, |more|)];
    assert longer[..|longer| - 1] == holes;
    assert (inner + more)[|inner + more| - |more|..] == more && (inner + more)[..|inner + more| - |more|] == inner;
  }

  /** What the tokens of an interpolation are known to be, once its code was scanned. */
  lemma RunIsKnown(o: Setting, text: Text, passed: seq<Stretch>, more: seq<Stretch>, before: seq<Token>, after: seq<Token>,
                   dollar: nat, next: nat, closed: bool)
    requires StretchesOk(o, text, more) && dollar + 2 <= next <= |text| && (if closed then dollar + 2 < next else next == |text|)
    requires Scanned(o, text, passed, more, before, after, dollar + 2, if closed then next - 1 else next)
    requires Level(after[|before|..], 0, closed)
    ensures closed && Convertible(o.py, after[|before|..]) ==> HoleRun(o, text, after[|before|..], dollar + 2, next - 1)
    ensures !closed ==> OpenRun(o, text, after[|before|..], dollar + 2)
  {
    hide Covers, Convertible, Unterminated, NeverBelow, AllExplained, Sourced;
    var run := after[|before|..];
    var hi := if closed then next - 1 else next;
    var cut: nat :| dollar + 2 <= cut <= hi && Covers(o, text, more, run, dollar + 2, cut) && CutOff(o, text, cut, hi);
    assert Fills(o, text, run, dollar + 2, cut);
    if !closed { assert OpenUpTo(o, text, run, dollar + 2, cut); }
  }

  /** The tokens of an interpolation evaluate to something assembled between its braces. */
  lemma InterpolationIsAssembled(o: Setting, text: Text, passed: seq<Stretch>, more: seq<Stretch>, before: seq<Token>, after: seq<Token>,
                                 lo: nat, hi: nat)
    requires Scanned(o, text, passed, more, before, after, lo, hi)
    ensures |before| <= |after| && Good(o, text, after[|before|..], lo, hi)
    ensures ResultAssembled(o.py, text, lo, hi, ConstantExpressionValue(o.py, after[|before|..]))
  {
    hide Sourced, Assembled, ConstantExpressionValue, AllExplained, Reaches;
    EvaluatedIsAssembled(o.py, text, after[|before|..], lo, hi);
  }

  /** The tokens of an interpolation that no brace closes. */
  ghost predicate OpenRun(o: Setting, text: Text, run: seq<Token>, lo: nat) {
    exists cut: nat :: OpenUpTo(o, text, run, lo, cut)
  }

  ghost predicate OpenUpTo(o: Setting, text: Text, run: seq<Token>, lo: nat, cut: nat) {
    && lo <= cut <= |text| && NeverBelow(run) && Fills(o, text, run, lo, cut) && Good(o, text, run, lo, |text|)
    && (cut == |text| || Unterminated(o, text, cut))
  }

  lemma OpenHoleIsUnterminated(o: Setting, text: Text, start: nat, holes: seq<Hole>, inner: seq<Token>, opener: nat, run: seq<Token>)
    requires start <= opener < |text| && text[start] == BACKTICK && HolesOk(o, text, start, holes, inner, opener)
    requires var dollar := RawEnd(text, opener + 1, Template);
             && dollar < |text| && AtDelimiter(text, dollar, Template) && text[dollar] == DOLLAR && OpenRun(o, text, run, dollar + 2)
    ensures Unterminated(o, text, start)
  {
    hide HolesOk, Fills, NeverBelow, Good;
    var dollar := RawEnd(text, opener + 1, Template);
    var cut: nat :| OpenUpTo(o, text, run, dollar + 2, cut);
    assert OpenHole(o, text, start, opener, run, cut);
  }

  lemma OpenPieceIsUnterminated(o: Setting, text: Text, start: nat, holes: seq<Hole>, inner: seq<Token>, opener: nat)
    requires start <= opener < |text| && text[start] == BACKTICK && HolesOk(o, text, start, holes, inner, opener)
    requires RawEnd(text, opener + 1, Template) == |text|
    ensures Unterminated(o, text, start)
  {
    hide HolesOk, Fills, NeverBelow;
    assert OpenPiece(o, text, start, holes, inner, opener);
  }

  lemma PieceToTheEnd(o: Setting, text: Text, start: nat, holes: seq<Hole>, inner: seq<Token>, opener: nat, raw: Text, constant: bool, cooked: Text)
    requires start < |text| && text[start] == BACKTICK && PieceSoFar(text, opener, |text|, raw)
    requires TemplateSoFar(o, text, start, holes, inner, opener, constant, cooked)
    ensures Unterminated(o, text, start)
  {
    hide HolesOk, Assembled, Unterminated;
    OpenPieceIsUnterminated(o, text, start, holes, inner, opener);
  }

  lemma OpenTemplate(o: Setting, text: Text, start: nat, holes: seq<Hole>, inner: seq<Token>, opener: nat, dollar: nat,
                     constant: bool, cooked: Text, run: seq<Token>)
    requires start < |text| && text[start] == BACKTICK && TemplateSoFar(o, text, start, holes, inner, opener, constant, cooked)
    requires opener < dollar < |text| && RawEnd(text, opener + 1, Template) == dollar
    requires AtDelimiter(text, dollar, Template) && text[dollar] == DOLLAR && OpenRun(o, text, run, dollar + 2)
    ensures Unterminated(o, text, start)
  {
    hide HolesOk, Assembled, Unterminated, OpenRun, RawEnd;
    OpenHoleIsUnterminated(o, text, start, holes, inner, opener, run);
  }

  /** An unclosed template emits only the tokens of its interpolations. */
  lemma PassOpenTemplate(o: Setting, text: Text, passed: seq<Stretch>, more: seq<Stretch>, before: seq<Token>, after: seq<Token>, start: nat)
    requires start < |text| && Unterminated(o, text, start) && Moved(o, text, passed, more, before, after, start + 1, |text|)
    ensures Scanned(o, text, passed, more, before, after, start, |text|)
  {
    hide Covers, Unterminated, Good;
    ExtendsWiden(o, text, before, after, start + 1, |text|, start, |text|);
    CoversNothing(o, text, more, after[|before|..], start);
    assert CutOff(o, text, start, |text|);
  }

  /** A closed template covers all from its first backtick to its last. */
  lemma PassTemplate(o: Setting, text: Text, passed: seq<Stretch>, more: seq<Stretch>, before: seq<Token>, after: seq<Token>, t: Token,
                     lo: nat, hi: nat)
    requires lo <= hi && Extends(o, text, before, after, lo, hi) && Grows(passed, more, lo + 1)
    requires t in after[|before|..] && t.start == lo && t.end == hi
    ensures Scanned(o, text, passed, more, before, after, lo, hi)
  {
    hide Covers, Good;
    CoversToken(o, text, more, after[|before|..], t, lo, hi);
    ReachesAll(o, text, more, after[|before|..], lo, hi);
  }

  // ------------------------------------------------------------------ JSX

  /** One tag of a JSX element. */
  datatype Tag = Tag(lo: nat, hi: nat, closing: bool, selfClosing: bool)

  ghost predicate TagOk(o: Setting, text: Text, t: Tag) {
    && t.lo < t.hi <= |text| && text[t.lo] == LESS
    && (t.closing <==> t.lo + 1 < |text| && text[t.lo + 1] == SLASH)
    && (t.hi < |text| ==> text[t.hi - 1] == GREATER && (SlashLast(o, text, t.lo, t.closing, t.hi - 1) ==> t.selfClosing))
    && (t.selfClosing ==> text[t.hi - 1] == GREATER && SlashLast(o, text, t.lo, t.closing, t.hi - 1))
  }

  /** The last character of the tag before `cursor` that is no white space is a slash. */
  ghost predicate SlashLast(o: Setting, text: Text, lo: nat, closing: bool, cursor: nat) {
    exists k :: lo + (if closing then 2 else 1) <= k < cursor <= |text| && text[k] == SLASH && forall j :: k < j < cursor ==> o.space(text[j])
  }

  lemma SlashStays(o: Setting, text: Text, lo: nat, closing: bool, cursor: nat)
    requires cursor < |text| && lo + (if closing then 2 else 1) <= cursor
    ensures SlashLast(o, text, lo, closing, cursor + 1) <==>
              text[cursor] == SLASH || (o.space(text[cursor]) && SlashLast(o, text, lo, closing, cursor))
  {
    if k :| lo + (if closing then 2 else 1) <= k < cursor + 1 && text[k] == SLASH && forall j :: k < j < cursor + 1 ==> o.space(text[j]) {
      if k < cursor {
        assert o.space(text[cursor]);
        assert SlashLast(o, text, lo, closing, cursor);
      }
    }
    if text[cursor] == SLASH {
      assert SlashLast(o, text, lo, closing, cursor + 1);
    } else if o.space(text[cursor]) && SlashLast(o, text, lo, closing, cursor) {
      var k :| lo + (if closing then 2 else 1) <= k < cursor && text[k] == SLASH && forall j :: k < j < cursor ==> o.space(text[j]);
      assert forall j :: k < j < cursor + 1 ==> o.space(text[j]);
    }
  }

  /** A quote or a brace stands between a slash and what follows. */
  lemma SlashIsCut(o: Setting, text: Text, lo: nat, closing: bool, cursor: nat)
    requires Sensible(o) && 0 < cursor <= |text|
    requires text[cursor - 1] == QUOTE || text[cursor - 1] == DQUOTE || text[cursor - 1] == RBRACE
    ensures !SlashLast(o, text, lo, closing, cursor)
  {
  }

  lemma NoSlashYet(o: Setting, text: Text, lo: nat, closing: bool)
    ensures !SlashLast(o, text, lo, closing, lo + if closing then 2 else 1)
  {
  }

  /** How many elements are open after the tags. */
  function OpenElements(tags: seq<Tag>): int {
    if tags == [] then 0 else OpenElements(tags[..|tags| - 1]) + TagDepth(tags[|tags| - 1])
  }

  function TagDepth(t: Tag): int { if t.closing then -1 else if t.selfClosing then 0 else 1 }

  ghost predicate ElementSoFar(o: Setting, text: Text, lo: nat, i: nat, tags: seq<Tag>, depth: int) {
    && |tags| > 0 && tags[0].lo == lo && tags[|tags| - 1].hi <= i && (depth == 0 ==> tags[|tags| - 1].hi == i)
    && (forall k :: 0 <= k < |tags| ==> TagOk(o, text, tags[k]))
    && (forall k, m :: 0 <= k < m < |tags| ==> tags[k].hi <= tags[m].lo)
    && (forall k :: 0 < k < |tags| ==> OpenElements(tags[..k]) > 0)
    && OpenElements(tags) == depth
  }

  /** An element runs from its first tag to the first tag that leaves none open, or to the
      end of the text. */
  ghost predicate Element(o: Setting, text: Text, lo: nat, hi: nat, tags: seq<Tag>) {
    exists depth :: ElementSoFar(o, text, lo, hi, tags, depth) && (hi < |text| ==> depth <= 0 && tags[|tags| - 1].hi == hi)
  }

  lemma ElementStarts(o: Setting, text: Text, t: Tag)
    requires TagOk(o, text, t)
    ensures ElementSoFar(o, text, t.lo, t.hi, [t], TagDepth(t))
    ensures TagDepth(t) <= 0 ==> Element(o, text, t.lo, t.hi, [t])
  {
    hide TagOk;
    assert [t][..0] == [];
    assert OpenElements([t]) == OpenElements([]) + TagDepth(t);
    assert ElementSoFar(o, text, t.lo, t.hi, [t], TagDepth(t));
  }

  lemma ElementGoesOn(o: Setting, text: Text, lo: nat, i: nat, tags: seq<Tag>, depth: int, t: Tag)
    requires ElementSoFar(o, text, lo, i, tags, depth) && depth > 0 && TagOk(o, text, t) && t.lo == i
    ensures ElementSoFar(o, text, lo, t.hi, tags + [t], depth + TagDepth(t))
  {
    hide SlashLast;
    var longer := tags + [t];
    forall k, m | 0 <= k < m < |longer| ensures longer[k].hi <= longer[m].lo {
      if k < |tags| - 1 && m == |tags| { assert tags[k].hi <= tags[|tags| - 1].lo && TagOk(o, text, tags[|tags| - 1]); }
    }
    assert longer[..|longer| - 1] == tags;
    forall k | 0 < k < |longer| ensures OpenElements(longer[..k]) > 0 {
      if k < |tags| { assert longer[..k] == tags[..k]; } else { assert longer[..k] == tags; }
    }
  }

  lemma ElementEnds(o: Setting, text: Text, lo: nat, hi: nat, tags: seq<Tag>, depth: int)
    requires ElementSoFar(o, text, lo, hi, tags, depth) && depth >= 0 && (hi >= |text| || depth == 0)
    ensures Element(o, text, lo, hi, tags)
  {
    hide TagOk;
  }

  // ------------------------------------------------------------------ the result

  /** The result of a text: what its run yields, and so no other list. The spans are nested
      and in source order, each token says what its span spells, on its line, and nothing is
      left out. */
  ghost predicate Result(o: Setting, text: Text, passed: seq<Stretch>, tokens: seq<Token>) {
    && Yields(o, text, passed, tokens)
    && Good(o, text, tokens, 0, |text|) && Reaches(o, text, passed, tokens, 0, |text|)
    && StretchesOk(o, text, passed) && forall t :: t in tokens ==> LineOk(o, text, passed, t)
  }

  lemma StartsWell(o: Setting, text: Text)
    ensures At(o, text, [], [], 0, 1) && RunsOk(o, text, [], false)
  {
  }

  lemma IsResult(o: Setting, text: Text, passed: seq<Stretch>, tokens: seq<Token>, line: int)
    requires Scanned(o, text, [], passed, [], tokens, 0, |text|) && At(o, text, passed, tokens, |text|, line)
    requires Yields(o, text, passed, tokens)
    ensures Result(o, text, passed, tokens) && Lexed(o.py, text, tokens)
  {
    hide Reaches, AllExplained, Sourced, StretchesOk, LineOk, LineAt, Grows, Yields;
    assert tokens[0..] == tokens;
  }

  /** On a tame text every token is on the line that the line feeds before it give. */
  lemma TameResult(o: Setting, text: Text, passed: seq<Stretch>, tokens: seq<Token>)
    requires Sensible(o) && Tame(text) && Result(o, text, passed, tokens)
    ensures forall t :: t in tokens ==> 0 <= t.start <= |text| && t.lineno == 1 + LineFeeds(text, t.start)
  {
    hide Tame, Good, Reaches, StretchesOk, LineAt, Sensible;
    forall t | t in tokens ensures 0 <= t.start <= |text| && t.lineno == 1 + LineFeeds(text, t.start) {
      assert LineOk(o, text, passed, t);
      TameLines(o, text, passed, t.start);
    }
  }

  lemma EmitStep(o: Setting, text: Text, was: seq<Stretch>, passed: seq<Stretch>, tokens: seq<Token>, t: Token,
                 index: nat, lineno: int, next: nat, line: int)
    requires At(o, text, was, tokens, index, lineno) && At(o, text, passed, tokens, next, line) && Grows(was, passed, index)
    requires Quoting(text, t) ==> Quote(t.start, t.end) in passed
    requires t.start == index < next == t.end && t.lineno == lineno && Sourced(o.py, text, t) && Explained(o, text, [t], 0)
    ensures At(o, text, passed, tokens + [t], next, line)
    ensures Scanned(o, text, was, passed, tokens, tokens + [t], index, next)
  {
    hide At, Explained, Sourced, Grows, Scanned, LineOk, StretchesOk;
    AtStretches(o, text, passed, tokens, next, line);
    LineOfStart(o, text, was, tokens, index, lineno, passed, t);
    StepToken(o, text, passed, tokens, next, line, t, tokens + [t]);
    EmitOne(o, text, was, passed, tokens, t, index, next);
  }
}
