/** Two texts on which the lexer of scripts/frontend_imports.py does what it should not: a
    token on the wrong line, and an interpolation that raises out of the lexer. */
module LexerLimits {
  import opened Text
  import opened JsStrings
  import opened Tokens
  import opened ConstEval
  import opened LexerLines
  import opened AsciiSetting
  import opened Identifiers
  import opened LexerMachine
  import opened LexerSpec
  import opened Lexer
  import ExprTree
  import ExprEval

  // ------------------------------------------------------------------ a wrong line

  /** A regex that holds an escaped line feed, and a semicolon. */
  const MISCOUNTED: Text := [SLASH, BACKSLASH, LF, SLASH, SEMICOLON]

  /** An expression can start where there is no token yet, and a slash, a backslash and a
      semicolon are no letters. */
  ghost predicate ReadsRegexes(o: Setting) {
    && Sensible(o) && o.expressionCanStart([], 0)
    && (forall c :: c in {SLASH, BACKSLASH, SEMICOLON} ==> !o.alpha(c) && !o.space(c))
  }

  lemma MiscountedRegex(o: Setting)
    requires ReadsRegexes(o)
    ensures RegexEnd(o, MISCOUNTED, 1, false) == 4
  {
    assert RegexEnd(o, MISCOUNTED, 3, false) == FlagsEnd(o, MISCOUNTED, 4) == 4;
  }

  /** Its run: the regex is passed, and the semicolon is a token on line 1. */
  lemma MiscountedYields(o: Setting)
    requires ReadsRegexes(o)
    ensures Yields(o, MISCOUNTED, [Regex(0, 4)], [Token(Punctuation, [SEMICOLON], 1, 4, 5)])
  {
    hide Meets, RegexEnd, DecodeIdentifierEscape;
    var code := Above(InCode(0, 0, false), Empty);
    MeetsStart(o, MISCOUNTED);
    MiscountedRegex(o);
    StepRegex(o, MISCOUNTED, START);
    assert [] + [Regex(0, 4)] == [Regex(0, 4)];
    EscapeNeedsBackslash(MISCOUNTED, 4);
    StepMark(o, MISCOUNTED, Now(4, 1, [], [Regex(0, 4)], code));
    assert [] + [Token(Punctuation, [SEMICOLON], 1, 4, 5)] == [Token(Punctuation, [SEMICOLON], 1, 4, 5)];
    LeavesAll(o, MISCOUNTED, Now(5, 1, [Token(Punctuation, [SEMICOLON], 1, 4, 5)], [Regex(0, 4)], code));
  }

  /** Lexing the text gives the semicolon on line 1. It is on line 2. */
  method LineIsMiscounted(o: Setting) returns (tokens: seq<Token>, raised: bool)
    requires ReadsRegexes(o)
    ensures !raised && tokens == [Token(Punctuation, [SEMICOLON], 1, 4, 5)] && 1 + LineFeeds(MISCOUNTED, 4) == 2
  {
    hide RunOk, Tame, Convertible, Yields, Fails, Reaches, Good, LineOk, ReadsRegexes;
    assert Sensible(o) by { RegexesAreSensible(o); }
    var lexer := new TypeScriptLexer(MISCOUNTED, o);
    tokens, raised := lexer.Scan();
    MiscountedYields(o);
    YieldsOnce(o, MISCOUNTED, [Regex(0, 4)], [Token(Punctuation, [SEMICOLON], 1, 4, 5)], lexer.passed, tokens);
    MiscountedFeeds();
  }

  lemma RegexesAreSensible(o: Setting)
    requires ReadsRegexes(o)
    ensures Sensible(o)
  {
  }

  lemma MiscountedFeeds()
    ensures LineFeeds(MISCOUNTED, 4) == 1
  {
    assert LineFeeds(MISCOUNTED, 3) == 1 && LineFeeds(MISCOUNTED, 2) == 0 && LineFeeds(MISCOUNTED, 1) == 0 && LineFeeds(MISCOUNTED, 0) == 0;
  }

  /** A string that holds an escaped carriage return, and a semicolon. */
  const RETURNED: Text := [DQUOTE, BACKSLASH, CR, DQUOTE, SEMICOLON]

  /** The semicolon is reported on line 2, and no line feed comes before it. */
  lemma ReturnIsMiscounted(o: Setting, passed: seq<Stretch>, tokens: seq<Token>)
    requires ReadsRegexes(o) && !o.space(DQUOTE) && Yields(o, RETURNED, passed, tokens)
    ensures |tokens| == 2 && tokens[1] == Token(Punctuation, [SEMICOLON], 2, 4, 5) && LineFeeds(RETURNED, 4) == 0
  {
    hide Meets, DecodeIdentifierEscape, Cook, Yields;
    var code := Above(InCode(0, 0, false), Empty);
    ReturnedQuote();
    MeetsStart(o, RETURNED);
    StepQuoted(o, RETURNED, START);
    var s := PassQuote(RETURNED, START).(tokens := [QuotedToken(RETURNED, START)]);
    assert [] + [QuotedToken(RETURNED, START)] == s.tokens;
    EscapeNeedsBackslash(RETURNED, 4);
    StepMark(o, RETURNED, s);
    var t := Token(Punctuation, [SEMICOLON], 2, 4, 5);
    LeavesAll(o, RETURNED, Now(5, 2, s.tokens + [t], s.passed, code));
    YieldsOnce(o, RETURNED, s.passed, s.tokens + [t], passed, tokens);
  }

  lemma ReturnedQuote()
    ensures QuoteEnd(RETURNED, 0) == 4 && LineFeeds(RETURNED, 4) == LineFeeds(RETURNED, 0) == 0 && LoneReturns(RETURNED, 1, 4) == 1
  {
    assert RawEnd(RETURNED, 3, Quoted(DQUOTE)) == 3 && RawEnd(RETURNED, 1, Quoted(DQUOTE)) == 3;
    assert LoneReturns(RETURNED, 3, 4) == LoneReturns(RETURNED, 4, 4) == 0;
    NoLineFeeds(RETURNED, 0, 4);
  }

  /** There is such a setting. */
  lemma AsciiReadsRegexes()
    ensures ReadsRegexes(ASCII) && KnowsSuperscript(ASCII)
  {
  }

  // ------------------------------------------------------------------ an interpolation that raises

  /** A template that interpolates a superscript two: a digit that `int` does not read. */
  const SUPERSCRIPT := 0xB2

  const RAISING: Text := [BACKTICK, DOLLAR, LBRACE, SUPERSCRIPT, RBRACE, BACKTICK]

  ghost predicate KnowsSuperscript(o: Setting) {
    && Sensible(o) && !o.alpha(SUPERSCRIPT) && !o.alpha(RBRACE) && (forall c :: c in RAISING ==> !o.space(c))
    && o.py.isDigit(SUPERSCRIPT) && o.py.readInt([SUPERSCRIPT]) == None
  }

  /** The superscript alone does not convert. */
  lemma SuperscriptRaises(o: Setting, t: Token)
    requires KnowsSuperscript(o) && t.kind.Punctuation? && t.value == [SUPERSCRIPT] && 0 <= t.start < t.end
    ensures ConstantExpressionValue(o.py, [t]) == Raises
  {
    hide ConstantExpressionValue;
    var e := ExprTree.Number([t]);
    assert [t][1..] == [] && JoinValues([t]) == [SUPERSCRIPT];
    assert [SUPERSCRIPT][1..] == [] && WithoutDots([SUPERSCRIPT]) == [SUPERSCRIPT];
    assert ExprTree.WellFormed(o.py, e);
    ExprEval.PrintedEvaluates(o.py, e);
  }

  /** Its run: the template is opened, the superscript is a token, and at the closing brace
      its value is asked for. */
  lemma RaisingFails(o: Setting)
    requires KnowsSuperscript(o)
    ensures Fails(o, RAISING)
  {
    hide Meets, DecodeIdentifierEscape, ConstantExpressionValue;
    var t := Token(Punctuation, [SUPERSCRIPT], 1, 3, 4);
    var f := InTemplate(0, 1, 0, [], Cook([], 0), true, true);
    var template := Above(f, Above(InCode(0, 0, false), Empty));
    MeetsStart(o, RAISING);
    assert RAISING[0] in RAISING && RAISING[3] in RAISING && RAISING[4] in RAISING;
    StepBacktick(o, RAISING, START);
    StepTemplateHole(o, RAISING, Now(1, 1, [], [], Above(InTemplate(0, 1, 0, [], [], false, true), Above(InCode(0, 0, false), Empty))));
    assert [] + Cook([], 0) == Cook([], 0);
    EscapeNeedsBackslash(RAISING, 3);
    StepMark(o, RAISING, Now(3, 1, [], [], Above(InCode(0, 0, true), template)));
    EscapeNeedsBackslash(RAISING, 4);
    var s := Now(4, 1, [t], [], Above(InCode(0, 0, true), template));
    assert [] + [t] == [t] && [t][0..] == [t];
    InterpolationLeaves(o, RAISING, s, 5);
    SuperscriptRaises(o, t);
  }

  /** Lexing the template raises. */
  method InterpolationRaises(o: Setting) returns (raised: bool)
    requires KnowsSuperscript(o)
    ensures raised
  {
    hide Result, RunOk, Tame, Convertible, Fails;
    var lexer := new TypeScriptLexer(RAISING, o);
    var tokens;
    tokens, raised := lexer.Scan();
    RaisingFails(o);
  }
}
