/** On texts without slashes and backticks (and without `<` where JSX is read) the mutually
    recursive lexer of scripts/frontend_imports.py is one left-to-right pass, whatever its
    guesses say. */
module PlainLexer {
  import opened Text
  import opened JsStrings
  import opened Prefilter
  import opened Tokens
  import opened ConstEval
  import opened Assembly
  import opened LexerLines
  import opened Identifiers
  import opened LexerMachine
  import opened LexerSpec

  ghost predicate PlainText(o: Setting, text: Text) {
    && (forall i :: 0 <= i < |text| ==> text[i] != SLASH && text[i] != BACKTICK && (text[i] == LESS ==> !o.jsx))
    && (forall c {:trigger o.space(c)} :: o.space(c) ==> !IdentifierStart(o, c) && !OpensLiteral(c) && c != BACKSLASH)
  }

  /** The token that starts at `p`, its line aside. */
  function Lexeme(o: Setting, text: Text, p: nat): (t: Token)
    requires p < |text|
    ensures t.start == p < t.end <= |text|
  {
    if OpensLiteral(text[p]) then Token(StringToken, Piece(text, p), 0, p, QuoteEnd(text, p))
    else if StartsIdentifier(o, text, p) then
      var (c, next) := IdentifierUnit(text, p);
      Token(Identifier, [c] + PartsValue(o, text, next), 0, p, PartsEnd(o, text, next))
    else Token(Punctuation, [text[p]], 0, p, p + 1)
  }

  /** White space is dropped, and every other character starts the token that holds it. */
  function Lexemes(o: Setting, text: Text, p: nat): (ts: seq<Token>)
    requires p <= |text|
    decreases |text| - p
  {
    if p == |text| then []
    else if o.space(text[p]) then Lexemes(o, text, p + 1)
    else [Lexeme(o, text, p)] + Lexemes(o, text, Lexeme(o, text, p).end)
  }

  function Unlined(t: Token): Token { t.(lineno := 0) }

  /** The same tokens, line numbers aside. */
  predicate SameTokens(a: seq<Token>, b: seq<Token>) {
    |a| == |b| && forall i :: 0 <= i < |a| ==> Unlined(a[i]) == Unlined(b[i])
  }

  /** The token is what the simple pass yields where it starts. */
  predicate IsLexeme(o: Setting, text: Text, t: Token) {
    0 <= t.start < |text| && !o.space(text[t.start]) && !IsTemplate(t) && Unlined(t) == Lexeme(o, text, t.start)
  }

  lemma TemplateStarts(o: Setting, text: Text, tokens: seq<Token>, i: nat)
    requires i < |tokens| && IsTemplate(tokens[i]) && Explained(o, text, tokens, i)
    ensures 0 <= tokens[i].start < |text| && text[tokens[i].start] == BACKTICK
  {
    hide HolesOk, HolesText;
  }

  /** What a token says decides it. */
  lemma TokenIsLexeme(o: Setting, text: Text, tokens: seq<Token>, i: nat)
    requires PlainText(o, text) && i < |tokens| && Explained(o, text, tokens, i)
    ensures IsLexeme(o, text, tokens[i])
  {
    hide HolesOk, HolesText, ContinuesIdentifier, RawEnd, Piece;
    var t := tokens[i];
    match t.kind
    case StringToken =>
    case Identifier =>
      StartsNoSpace(o, text, t.start);
      PartsAre(o, text, IdentifierUnit(text, t.start).1, t.end, t.value[1..]);
      assert t.value == [t.value[0]] + t.value[1..];
    case Punctuation =>
    case _ =>
      TemplateStarts(o, text, tokens, i);
      assert false;
  }

  lemma StartsNoSpace(o: Setting, text: Text, i: nat)
    requires PlainText(o, text) && i < |text| && StartsIdentifier(o, text, i)
    ensures !o.space(text[i])
  {
    EscapeNeedsBackslash(text, i);
  }

  lemma RegexStarts(o: Setting, text: Text, passed: seq<Stretch>, lo: nat, hi: nat)
    requires StretchesOk(o, text, passed) && Regex(lo, hi) in passed
    ensures lo < |text| && text[lo] == SLASH
  {
    var i :| 0 <= i < |passed| && passed[i] == Regex(lo, hi);
    assert StretchOk(o, text, passed[i]);
  }

  lemma NothingIsSkipped(o: Setting, text: Text, passed: seq<Stretch>, lo: nat, hi: nat)
    requires PlainText(o, text) && StretchesOk(o, text, passed)
    ensures !SkippedSpan(o, text, passed, lo, hi)
  {
    if Regex(lo, hi) in passed { RegexStarts(o, text, passed, lo, hi); }
  }

  /** Position `p` is inside a token. */
  ghost predicate InSome(tokens: seq<Token>, p: int) { exists t :: t in tokens && t.start <= p < t.end }

  /** Nothing but white space is outside the tokens. */
  lemma PlainIsCovered(o: Setting, text: Text, passed: seq<Stretch>, tokens: seq<Token>, p: nat)
    requires PlainText(o, text) && Result(o, text, passed, tokens) && p < |text| && !o.space(text[p])
    ensures InSome(tokens, p)
  {
    hide Good, LineOk, SkippedSpan, StretchesOk;
    var cut: nat :| 0 <= cut <= |text| && Covers(o, text, passed, tokens, 0, cut) && CutOff(o, text, cut, |text|);
    assert Covered(o, text, passed, tokens, 0, p);
    forall lo: nat, hi: nat ensures !SkippedSpan(o, text, passed, lo, hi) { NothingIsSkipped(o, text, passed, lo, hi); }
  }

  /** The tokens from `k` on start at `p` or later, the others end by then. */
  predicate SplitAt(tokens: seq<Token>, k: nat, p: nat) {
    && k <= |tokens|
    && (forall i :: 0 <= i < k ==> tokens[i].end <= p)
    && (forall i :: k <= i < |tokens| ==> p <= tokens[i].start)
  }

  /** A character that is no white space starts the next token. */
  lemma NextToken(o: Setting, text: Text, tokens: seq<Token>, k: nat, p: nat)
    requires Nested(tokens) && SplitAt(tokens, k, p) && p < |text| && InSome(tokens, p)
    requires forall i :: 0 <= i < |tokens| ==> IsLexeme(o, text, tokens[i])
    ensures k < |tokens| && Unlined(tokens[k]) == Lexeme(o, text, p) && SplitAt(tokens, k + 1, tokens[k].end)
  {
    hide Lexeme;
    var t :| t in tokens && t.start <= p < t.end;
    var j :| 0 <= j < |tokens| && tokens[j] == t;
    assert j >= k && (k < j ==> Follows(tokens[k], tokens[j]));
    assert IsLexeme(o, text, tokens[k]) && tokens[k].start == p;
    forall i | k < i < |tokens| ensures tokens[k].end <= tokens[i].start {
      assert Follows(tokens[k], tokens[i]);
    }
  }

  lemma {:induction false} LexemesFrom(o: Setting, text: Text, tokens: seq<Token>, k: nat, p: nat)
    requires Nested(tokens) && SplitAt(tokens, k, p) && p <= |text|
    requires forall i :: 0 <= i < |tokens| ==> IsLexeme(o, text, tokens[i])
    requires forall q :: 0 <= q < |text| && !o.space(text[q]) ==> InSome(tokens, q)
    ensures SameTokens(tokens[k..], Lexemes(o, text, p))
    decreases |text| - p
  {
    hide Lexeme, Nested, InSome, SameTokens, SplitAt, IsLexeme;
    if p == |text| {
      NoneLeft(o, text, tokens, k);
    } else if o.space(text[p]) {
      SpaceIsPassed(o, text, tokens, k, p);
      LexemesFrom(o, text, tokens, k, p + 1);
    } else {
      NextToken(o, text, tokens, k, p);
      LexemesFrom(o, text, tokens, k + 1, tokens[k].end);
      assert tokens[k..][1..] == tokens[k + 1..];
      SameHead(tokens[k..], Lexemes(o, text, p));
    }
  }

  lemma NoneLeft(o: Setting, text: Text, tokens: seq<Token>, k: nat)
    requires SplitAt(tokens, k, |text|) && forall i :: 0 <= i < |tokens| ==> IsLexeme(o, text, tokens[i])
    ensures SameTokens(tokens[k..], [])
  {
    assert k < |tokens| ==> IsLexeme(o, text, tokens[k]);
  }

  lemma SpaceIsPassed(o: Setting, text: Text, tokens: seq<Token>, k: nat, p: nat)
    requires SplitAt(tokens, k, p) && forall i :: 0 <= i < |tokens| ==> IsLexeme(o, text, tokens[i])
    requires p < |text| && o.space(text[p])
    ensures SplitAt(tokens, k, p + 1)
  {
    forall i | k <= i < |tokens| ensures p + 1 <= tokens[i].start { assert IsLexeme(o, text, tokens[i]); }
  }

  lemma SameHead(a: seq<Token>, b: seq<Token>)
    requires a != [] && b != [] && Unlined(a[0]) == Unlined(b[0]) && SameTokens(a[1..], b[1..])
    ensures SameTokens(a, b)
  {
    forall i | 0 <= i < |a| ensures Unlined(a[i]) == Unlined(b[i]) {
      if i > 0 { assert a[i] == a[1..][i - 1] && b[i] == b[1..][i - 1]; }
    }
  }

  /** On a plain text the lexer yields the tokens of the simple pass. */
  lemma PlainTextIsLexemes(o: Setting, text: Text, passed: seq<Stretch>, tokens: seq<Token>)
    requires PlainText(o, text) && Result(o, text, passed, tokens)
    ensures SameTokens(tokens, Lexemes(o, text, 0))
  {
    hide PlainText, Reaches, Lexemes, Explained, IsLexeme, InSome, LineOk, StretchesOk, Sourced;
    forall i | 0 <= i < |tokens| ensures IsLexeme(o, text, tokens[i]) { TokenIsLexeme(o, text, tokens, i); }
    forall q: nat | q < |text| && !o.space(text[q]) ensures InSome(tokens, q) { PlainIsCovered(o, text, passed, tokens, q); }
    LexemesFrom(o, text, tokens, 0, 0);
    assert tokens[0..] == tokens;
  }

  // ------------------------------------------------------------------ what the simple pass yields is explained

  ghost predicate Ascending(o: Setting, text: Text, ts: seq<Token>, p: nat) {
    && (forall i :: 0 <= i < |ts| ==> p <= ts[i].start < ts[i].end <= |text|)
    && (forall i, j :: 0 <= i < j < |ts| ==> ts[i].end <= ts[j].start)
    && (forall i :: 0 <= i < |ts| ==> IsLexeme(o, text, ts[i]))
  }

  lemma {:induction false} LexemesAscend(o: Setting, text: Text, p: nat)
    requires p <= |text|
    ensures Ascending(o, text, Lexemes(o, text, p), p)
    ensures forall q: nat :: p <= q < |text| && !o.space(text[q]) ==> InSome(Lexemes(o, text, p), q)
    decreases |text| - p
  {
    hide Lexeme, InSome;
    if p < |text| && o.space(text[p]) {
      LexemesAscend(o, text, p + 1);
    } else if p < |text| {
      var t := Lexeme(o, text, p);
      var rest := Lexemes(o, text, t.end);
      LexemesAscend(o, text, t.end);
      LexemeIsPlain(o, text, p);
      forall q: nat | p <= q < |text| && !o.space(text[q]) ensures InSome([t] + rest, q) {
        assert q >= t.end ==> InSome(rest, q);
        InSomeMore(t, rest, q);
      }
    }
  }

  lemma LexemeIsPlain(o: Setting, text: Text, p: nat)
    requires p < |text|
    ensures var t := Lexeme(o, text, p); !IsTemplate(t) && t.lineno == 0
  {
  }

  lemma InSomeMore(t: Token, rest: seq<Token>, q: nat)
    requires t.start <= q < t.end || InSome(rest, q)
    ensures InSome([t] + rest, q)
  {
    if t.start <= q < t.end {
      assert t in [t] + rest;
    } else {
      var u :| u in rest && u.start <= q < u.end;
      assert u in [t] + rest;
    }
  }

  lemma {:induction false} PartsSpell(o: Setting, text: Text, i: nat)
    requires i <= |text|
    ensures SpellsParts(o, text, i, PartsEnd(o, text, i), PartsValue(o, text, i))
    ensures PartsEnd(o, text, i) < |text| ==> !ContinuesIdentifier(o, text, PartsEnd(o, text, i))
    decreases |text| - i
  {
    hide ContinuesIdentifier, IdentifierUnit;
    if i < |text| && ContinuesIdentifier(o, text, i) {
      var next := IdentifierUnit(text, i).1;
      PartsSpell(o, text, next);
      assert PartsValue(o, text, i)[1..] == PartsValue(o, text, next);
    }
  }

  /** A token of the simple pass says what its span spells. */
  lemma LexemeIsExplained(o: Setting, text: Text, tokens: seq<Token>, i: nat)
    requires PlainText(o, text) && i < |tokens| && IsLexeme(o, text, tokens[i])
    ensures Explained(o, text, tokens, i) && Sourced(o.py, text, tokens[i])
  {
    hide ContinuesIdentifier, RawEnd, Piece, Assembled;
    var t := tokens[i];
    if OpensLiteral(text[t.start]) {
      AssembledLiteral(o.py, text, t.start, t.end, t.start);
    } else if StartsIdentifier(o, text, t.start) {
      PartsSpell(o, text, IdentifierUnit(text, t.start).1);
      assert t.value[1..] == PartsValue(o, text, IdentifierUnit(text, t.start).1);
    }
  }

  lemma LinedIsGood(o: Setting, text: Text, ts: seq<Token>, tokens: seq<Token>)
    requires PlainText(o, text) && Ascending(o, text, ts, 0) && SameTokens(tokens, ts)
    ensures Good(o, text, tokens, 0, |text|)
  {
    hide PlainText, Explained, Sourced, Lexeme;
    forall i | 0 <= i < |tokens| ensures Explained(o, text, tokens, i) && Sourced(o.py, text, tokens[i]) {
      assert IsLexeme(o, text, ts[i]) && Unlined(tokens[i]) == Unlined(ts[i]);
      LexemeIsExplained(o, text, tokens, i);
    }
    forall i, j | 0 <= i < j < |tokens| ensures Follows(tokens[i], tokens[j]) {
      assert Unlined(tokens[i]) == Unlined(ts[i]) && Unlined(tokens[j]) == Unlined(ts[j]);
    }
  }

  // ------------------------------------------------------------------ and the run of the lexer is the simple pass

  lemma {:induction false} PartsHaveNoFeed(o: Setting, text: Text, i: nat)
    requires Sensible(o) && i <= |text|
    ensures forall k :: i <= k < PartsEnd(o, text, i) ==> text[k] != LF
    decreases |text| - i
  {
    hide DecodeIdentifierEscape;
    if i < |text| && ContinuesIdentifier(o, text, i) {
      EscapeNeedsBackslash(text, i);
      PartsHaveNoFeed(o, text, IdentifierUnit(text, i).1);
    }
  }

  lemma IdentifierHasNoFeed(o: Setting, text: Text, i: nat)
    requires Sensible(o) && i < |text| && StartsIdentifier(o, text, i)
    ensures forall k :: i <= k < PartsEnd(o, text, IdentifierUnit(text, i).1) ==> text[k] != LF
  {
    hide DecodeIdentifierEscape;
    EscapeNeedsBackslash(text, i);
    PartsHaveNoFeed(o, text, IdentifierUnit(text, i).1);
  }

  /** The run stands in the code of the text itself, outside all braces. */
  ghost predicate Standing(o: Setting, text: Text, s: State) {
    && Meets(o, text, s) && s.Now? && s.i <= |text| && s.stack == Above(InCode(0, 0, false), Empty)
    && At(o, text, s.passed, s.tokens, s.i, s.line)
  }

  /** One lexeme is read. */
  ghost predicate Reads(o: Setting, text: Text, s: State, r: State)
    requires s.Now? && s.i < |text|
  {
    && Standing(o, text, r) && r.i == Lexeme(o, text, s.i).end && |r.tokens| == |s.tokens| + 1 && r.tokens[..|s.tokens|] == s.tokens
    && Unlined(r.tokens[|s.tokens|]) == Lexeme(o, text, s.i)
  }

  lemma ReadsQuoted(o: Setting, text: Text, s: State) returns (r: State)
    requires PlainText(o, text) && Standing(o, text, s) && s.i < |text| && !o.space(text[s.i]) && OpensLiteral(text[s.i])
    ensures Reads(o, text, s, r)
  {
    hide Meets, At, Cook, Piece, RawEnd, LineFeeds, LoneReturns;
    StepQuoted(o, text, s);
    var t := QuotedToken(text, s);
    var q := Quote(s.i, QuoteEnd(text, s.i));
    r := PassQuote(text, s).(tokens := s.tokens + [t]);
    QuotedPiece(text, s.i, text[s.i + 1..RawEnd(text, s.i + 1, Quoted(text[s.i]))]);
    StepStretch(o, text, s.passed, s.tokens, s.i, s.line, q);
    assert q in r.passed by { assert r.passed[|s.passed|] == q; }
    ReadsToken(o, text, s, r, t);
  }

  /** The new token is on its line. */
  lemma ReadsToken(o: Setting, text: Text, s: State, r: State, t: Token)
    requires s.Now? && r.Now? && At(o, text, s.passed, s.tokens, s.i, s.line) && At(o, text, r.passed, s.tokens, r.i, r.line)
    requires Grows(s.passed, r.passed, s.i) && r.tokens == s.tokens + [t] && t.start == s.i < r.i && t.lineno == s.line
    requires Quoting(text, t) ==> Quote(t.start, t.end) in r.passed
    ensures At(o, text, r.passed, r.tokens, r.i, r.line)
  {
    hide At, LineOk, Grows;
    AtStretches(o, text, r.passed, s.tokens, r.i, r.line);
    LineOfStart(o, text, s.passed, s.tokens, s.i, s.line, r.passed, t);
    StepToken(o, text, r.passed, s.tokens, r.i, r.line, t, r.tokens);
  }

  lemma ReadsIdentifier(o: Setting, text: Text, s: State) returns (r: State)
    requires Sensible(o) && PlainText(o, text) && Standing(o, text, s) && s.i < |text|
    requires !o.space(text[s.i]) && !OpensLiteral(text[s.i]) && StartsIdentifier(o, text, s.i)
    ensures Reads(o, text, s, r)
  {
    hide Meets, At, IdentifierUnit, StartsIdentifier;
    StepIdentifier(o, text, s);
    var t := IdentifierToken(o, text, s);
    r := s.(i := t.end, tokens := s.tokens + [t]);
    IdentifierHasNoFeed(o, text, s.i);
    StepPlain(o, text, s.passed, s.tokens, s.i, t.end, s.line);
    GrowsNot(s.passed, s.i);
    ReadsToken(o, text, s, r, t);
  }

  lemma ReadsMark(o: Setting, text: Text, s: State) returns (r: State)
    requires Sensible(o) && PlainText(o, text) && Standing(o, text, s) && s.i < |text|
    requires !o.space(text[s.i]) && !OpensLiteral(text[s.i]) && !StartsIdentifier(o, text, s.i)
    ensures Reads(o, text, s, r)
  {
    hide Meets, At, StartsIdentifier;
    StepMark(o, text, s);
    var t := Token(Punctuation, [text[s.i]], s.line, s.i, s.i + 1);
    r := s.(i := s.i + 1, tokens := s.tokens + [t]);
    StepChar(o, text, s.passed, s.tokens, s.i, s.line);
    GrowsNot(s.passed, s.i);
    ReadsToken(o, text, s, r, t);
  }

  lemma ReadsLexeme(o: Setting, text: Text, s: State) returns (r: State)
    requires Sensible(o) && PlainText(o, text) && Standing(o, text, s) && s.Now? && s.i < |text| && !o.space(text[s.i])
    ensures Reads(o, text, s, r)
  {
    hide Standing, StartsIdentifier, Reads, PlainText;
    if OpensLiteral(text[s.i]) {
      r := ReadsQuoted(o, text, s);
    } else if StartsIdentifier(o, text, s.i) {
      r := ReadsIdentifier(o, text, s);
    } else {
      r := ReadsMark(o, text, s);
    }
  }

  lemma StandingStep(o: Setting, text: Text, s: State)
    requires Standing(o, text, s) && s.i < |text| && o.space(text[s.i])
    ensures Standing(o, text, s.(i := s.i + 1, line := s.line + Feed(text[s.i])))
  {
    hide Meets, At;
    StepSpace(o, text, s);
    StepChar(o, text, s.passed, s.tokens, s.i, s.line);
  }

  lemma StandingEnd(o: Setting, text: Text, s: State)
    requires Standing(o, text, s) && s.i == |text|
    ensures Yields(o, text, s.passed, s.tokens)
  {
    hide Meets, At;
    LeavesAll(o, text, s);
  }

  /** From wherever the run stands, it goes on with the lexemes of the rest of the text. */
  lemma {:induction false} PlainRun(o: Setting, text: Text, s: State) returns (r: State)
    requires Sensible(o) && PlainText(o, text) && Standing(o, text, s)
    ensures r.Now? && Standing(o, text, r) && Yields(o, text, r.passed, r.tokens) && r.i == |text|
    ensures |s.tokens| <= |r.tokens| && r.tokens[..|s.tokens|] == s.tokens
    ensures SameTokens(r.tokens[|s.tokens|..], Lexemes(o, text, s.i))
    decreases |text| - s.i
  {
    hide Meets, At, Lexeme, PlainText, Yields;
    if s.i == |text| {
      r := s;
      StandingEnd(o, text, s);
    } else if o.space(text[s.i]) {
      StandingStep(o, text, s);
      r := PlainRun(o, text, s.(i := s.i + 1, line := s.line + Feed(text[s.i])));
    } else {
      var n := ReadsLexeme(o, text, s);
      r := PlainRun(o, text, n);
      var m := |s.tokens|;
      assert r.tokens[..m] == r.tokens[..m + 1][..m] && r.tokens[m] == r.tokens[..m + 1][m];
      assert r.tokens[m..][1..] == r.tokens[m + 1..];
      LexemeIsPlain(o, text, s.i);
      SameHead(r.tokens[m..], Lexemes(o, text, s.i));
    }
  }

  lemma SameInSome(ts: seq<Token>, tokens: seq<Token>, q: int)
    requires SameTokens(tokens, ts) && InSome(ts, q)
    ensures InSome(tokens, q)
  {
    var t :| t in ts && t.start <= q < t.end;
    var i :| 0 <= i < |ts| && ts[i] == t;
    assert Unlined(tokens[i]) == Unlined(ts[i]) && tokens[i] in tokens;
  }

  /** The simple pass yields, lines added, the result of the lexer on every plain text. */
  lemma PlainTextIsLexed(o: Setting, text: Text) returns (passed: seq<Stretch>, tokens: seq<Token>)
    requires Sensible(o) && PlainText(o, text)
    ensures Result(o, text, passed, tokens) && SameTokens(tokens, Lexemes(o, text, 0))
  {
    hide PlainText, Lexemes, Good, StretchesOk, LineOk, Lexeme, IsLexeme, InSome, Reaches, SameTokens, Meets, Yields, Sensible;
    StartsWell(o, text);
    MeetsStart(o, text);
    var r := PlainRun(o, text, START);
    passed, tokens := r.passed, r.tokens;
    assert tokens[0..] == tokens;
    var ts := Lexemes(o, text, 0);
    LexemesAscend(o, text, 0);
    LinedIsGood(o, text, ts, tokens);
    forall q: nat | q < |text| && !o.space(text[q]) ensures InSome(tokens, q) { SameInSome(ts, tokens, q); }
    InSomeReaches(o, text, passed, tokens);
  }

  lemma InSomeReaches(o: Setting, text: Text, passed: seq<Stretch>, tokens: seq<Token>)
    requires forall q: nat :: q < |text| && !o.space(text[q]) ==> InSome(tokens, q)
    ensures Reaches(o, text, passed, tokens, 0, |text|)
  {
    assert Covers(o, text, passed, tokens, 0, |text|) by {
      forall q: nat | 0 <= q < |text| ensures Covered(o, text, passed, tokens, 0, q) {
        if !o.space(text[q]) { assert InSome(tokens, q); }
      }
    }
    ReachesAll(o, text, passed, tokens, 0, |text|);
  }
}
