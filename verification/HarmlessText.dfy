/** Texts on which no interpolation can make the lexer of scripts/frontend_imports.py raise: a
    caller can see it from the characters alone. */
module HarmlessText {
  import opened Text
  import opened JsStrings
  import opened Tokens
  import opened ConstEval
  import opened LexerLines
  import opened Identifiers
  import opened LexerMachine

  /** No backslash, no plus sign and no character that Python takes for a digit. */
  predicate Harmless(py: Python, text: Text) {
    forall i :: 0 <= i < |text| ==> text[i] != BACKSLASH && text[i] != PLUS && !py.isDigit(text[i])
  }

  /** No character is a digit. */
  predicate Calm(py: Python, v: Text) { forall i :: 0 <= i < |v| ==> !py.isDigit(v[i]) }

  predicate CalmToken(py: Python, t: Token) { Calm(py, t.value) && !IsPunct(t, PLUS) }

  predicate CalmRun(py: Python, ts: seq<Token>) { forall i :: 0 <= i < |ts| ==> CalmToken(py, ts[i]) }

  /** A constant without digits, or none. */
  predicate CalmOutcome(py: Python, r: Outcome) {
    match r
    case Unknown => true
    case Raises => false
    case Known(v) => v.Null? || v.Bool? || (v.Str? && Calm(py, v.s))
  }

  // ------------------------------------------------------------------ evaluation

  lemma CalmSlice(py: Python, ts: seq<Token>, lo: nat, hi: nat)
    requires CalmRun(py, ts) && lo <= hi <= |ts|
    ensures CalmRun(py, ts[lo..hi])
  {
    hide CalmToken;
  }

  lemma {:induction false} CalmCollapse(py: Python, ts: seq<Token>, a: int)
    requires CalmRun(py, ts)
    ensures CalmRun(py, CollapseFrom(ts, a))
  {
    hide CalmToken;
    if ts != [] {
      CalmSlice(py, ts, 1, |ts|);
      assert ts[1..|ts|] == ts[1..];
      CalmCollapse(py, ts[1..], a);
      CalmCollapse(py, ts[1..], if IsTemplate(ts[0]) then ts[0].end else a);
    }
  }

  lemma {:induction false} CalmEvaluates(py: Python, ts: seq<Token>)
    requires AsciiDigits(py) && CalmRun(py, ts)
    ensures CalmOutcome(py, ConstantExpressionValue(py, ts))
    decreases |ts|, 3
  {
    hide Evaluate, CalmRun, CalmOutcome, StripBounds, AsciiDigits;
    CalmCollapse(py, ts, -1);
    var (lo, hi) := StripBounds(Collapse(ts));
    CalmSlice(py, Collapse(ts), lo, hi);
    CalmEvaluatesBare(py, Strip(Collapse(ts)));
  }

  lemma {:induction false} CalmEvaluatesBare(py: Python, ts: seq<Token>)
    requires AsciiDigits(py) && CalmRun(py, ts)
    ensures CalmOutcome(py, Evaluate(py, ts))
    decreases |ts|, 2
  {
    hide CalmRun, EvaluateBinary, LastOperator, ConditionalIndices, ConstantExpressionValue, AsciiDigits;
    if ts != [] {
      var comma, conditional := LastOperator(ts, [COMMA]), ConditionalIndices(ts);
      if comma.Some? {
        OperatorWithin(ts, [COMMA]);
        CalmSides(py, ts, comma.value, 1);
      } else if conditional.Some? {
        ConditionalWithin(ts);
        var (question, colon) := conditional.value;
        CalmSides(py, ts, colon, 1);
        CalmSlice(py, ts, 0, question);
        CalmSlice(py, ts, question + 1, colon);
        assert ts[0..question] == ts[..question];
        CalmEvaluates(py, ts[..question]);
        CalmEvaluates(py, ts[question + 1..colon]);
      } else {
        CalmEvaluatesBinary(py, ts);
      }
    }
  }

  /** Both sides of an operator. */
  lemma {:induction false} CalmSides(py: Python, ts: seq<Token>, at: nat, width: nat)
    requires AsciiDigits(py) && CalmRun(py, ts) && at + width <= |ts| && width > 0
    ensures CalmOutcome(py, ConstantExpressionValue(py, ts[..at])) && CalmOutcome(py, ConstantExpressionValue(py, ts[at + width..]))
    decreases |ts|, 0
  {
    hide CalmRun, CalmOutcome, ConstantExpressionValue, AsciiDigits;
    CalmSlice(py, ts, 0, at);
    CalmSlice(py, ts, at + width, |ts|);
    assert ts[0..at] == ts[..at] && ts[at + width..|ts|] == ts[at + width..];
    CalmEvaluates(py, ts[..at]);
    CalmEvaluates(py, ts[at + width..]);
  }

  lemma {:induction false} CalmEvaluatesBinary(py: Python, ts: seq<Token>)
    requires AsciiDigits(py) && CalmRun(py, ts) && ts != []
    ensures CalmOutcome(py, EvaluateBinary(py, ts))
    decreases |ts|, 1
  {
    hide CalmRun, LastOperator, ConstantExpressionValue, ConstantPrimitive, AsciiDigits;
    var nullish, either := LastOperator(ts, NULLISH), LastOperator(ts, LOGICAL_OR);
    var both := LastOperator(ts, LOGICAL_AND);
    OperatorWithin(ts, NULLISH);
    OperatorWithin(ts, LOGICAL_OR);
    OperatorWithin(ts, LOGICAL_AND);
    CalmHasNoPlus(py, ts);
    if nullish.Some? {
      CalmSides(py, ts, nullish.value, 2);
    } else if either.Some? {
      CalmSides(py, ts, either.value, 2);
    } else if both.Some? {
      CalmSides(py, ts, both.value, 2);
    } else {
      CalmPrimitive(py, ts);
    }
  }

  lemma CalmHasNoPlus(py: Python, ts: seq<Token>)
    requires CalmRun(py, ts)
    ensures LastOperator(ts, [PLUS]).None?
  {
    hide TopLevel;
    forall j: nat ensures !OperatorAt(ts, j, [PLUS]) {
      if j < |ts| { assert CalmToken(py, ts[j]) && !IsPunct(ts[j], [PLUS][j - j]); }
    }
  }

  lemma CalmPrimitive(py: Python, ts: seq<Token>)
    requires AsciiDigits(py) && CalmRun(py, ts)
    ensures CalmOutcome(py, ConstantPrimitive(py, ts))
  {
    CalmJoin(py, ts);
    var t := JoinValues(ts);
    CalmDots(py, t);
    if |ts| == 1 { assert CalmToken(py, ts[0]); }
    assert WithoutDots(t) != [] ==> !py.isDigit(WithoutDots(t)[0]);
  }

  lemma {:induction false} CalmJoin(py: Python, ts: seq<Token>)
    requires CalmRun(py, ts)
    ensures Calm(py, JoinValues(ts))
  {
    if ts != [] {
      CalmSlice(py, ts, 1, |ts|);
      assert ts[1..|ts|] == ts[1..] && CalmToken(py, ts[0]);
      CalmJoin(py, ts[1..]);
    }
  }

  lemma {:induction false} CalmDots(py: Python, t: Text)
    requires Calm(py, t)
    ensures Calm(py, WithoutDots(t))
  {
    if t != [] { CalmDots(py, t[1..]); }
  }

  /** An interpolation without digits converts, and its string has no digit. */
  lemma CalmConverts(py: Python, run: seq<Token>)
    requires AsciiDigits(py) && CalmRun(py, run)
    ensures Convertible(py, run)
    ensures InterpolationText(py, run).Some? ==> Calm(py, InterpolationText(py, run).value)
  {
    hide ConstantExpressionValue, CalmRun;
    CalmEvaluates(py, run);
    WordsAreCalm(py);
  }

  lemma WordsAreCalm(py: Python)
    requires AsciiDigits(py)
    ensures Calm(py, Lit("null")) && Calm(py, Lit("true")) && Calm(py, Lit("false"))
  {
  }

  // ------------------------------------------------------------------ scanning

  /** Nothing is decoded where there is no backslash. */
  lemma {:induction false} CookedAsIs(raw: Text, index: nat)
    requires index <= |raw| && forall i :: 0 <= i < |raw| ==> raw[i] != BACKSLASH
    ensures Cook(raw, index) == raw[index..]
    decreases |raw| - index
  {
    if index < |raw| { CookedAsIs(raw, index + 1); }
  }

  lemma {:induction false} PartsAreCalm(o: Setting, text: Text, i: nat)
    requires Harmless(o.py, text) && i <= |text|
    ensures Calm(o.py, PartsValue(o, text, i))
    decreases |text| - i
  {
    hide DecodeIdentifierEscape;
    if i < |text| && ContinuesIdentifier(o, text, i) {
      EscapeNeedsBackslash(text, i);
      PartsAreCalm(o, text, IdentifierUnit(text, i).1);
    }
  }

  predicate HarmlessFrame(py: Python, f: Frame) { f.InTemplate? ==> Harmless(py, f.raw) && Calm(py, f.cooked) }

  predicate HarmlessStack(py: Python, stack: Stack) {
    stack.Above? ==> HarmlessFrame(py, stack.top) && HarmlessStack(py, stack.rest)
  }

  predicate HarmlessState(py: Python, s: State) { s.Now? && CalmRun(py, s.tokens) && HarmlessStack(py, s.stack) }

  lemma CalmMore(py: Python, ts: seq<Token>, t: Token)
    requires CalmRun(py, ts) && CalmToken(py, t)
    ensures CalmRun(py, ts + [t])
  {
    hide CalmToken;
  }

  lemma QuotedIsCalm(py: Python, text: Text, s: State)
    requires Harmless(py, text) && s.Now? && s.i < |text|
    ensures CalmToken(py, QuotedToken(text, s))
  {
    hide Cook, RawEnd, QuoteEnd;
    CookedAsIs(text[s.i + 1..RawEnd(text, s.i + 1, Quoted(text[s.i]))], 0);
  }

  lemma IdentifierIsCalm(o: Setting, text: Text, s: State)
    requires Harmless(o.py, text) && s.Now? && s.i < |text|
    ensures CalmToken(o.py, IdentifierToken(o, text, s))
  {
    hide DecodeIdentifierEscape, PartsValue, PartsEnd;
    EscapeNeedsBackslash(text, s.i);
    PartsAreCalm(o, text, IdentifierUnit(text, s.i).1);
  }

  lemma LeaveIsHarmless(o: Setting, s: State, next: nat)
    requires AsciiDigits(o.py) && HarmlessState(o.py, s) && s.stack.Above? && s.stack.top.InCode?
    ensures HarmlessState(o.py, Leave(o, s, next))
  {
    hide Convertible, InterpolationText, CalmRun, AsciiDigits, Harmless;
    var n, rest := s.stack.top.first, s.stack.rest;
    assert HarmlessStack(o.py, rest);
    if rest.Above? { assert HarmlessFrame(o.py, rest.top) && HarmlessStack(o.py, rest.rest); }
    if n <= |s.tokens| {
      CalmSlice(o.py, s.tokens, n, |s.tokens|);
      assert s.tokens[n..|s.tokens|] == s.tokens[n..];
      CalmConverts(o.py, s.tokens[n..]);
    }
  }

  lemma CodeIsHarmless(o: Setting, text: Text, s: State)
    requires AsciiDigits(o.py) && Harmless(o.py, text) && HarmlessState(o.py, s)
    requires s.i <= |text| && s.stack.Above? && s.stack.top.InCode?
    ensures HarmlessState(o.py, CodeStep(o, text, s))
  {
    hide Leave, QuotedToken, IdentifierToken, StartsIdentifier, RegexEnd, LineCommentEnd, BlockCommentEnd, LineFeeds, CalmRun,
         AsciiDigits, QuoteEnd, LoneReturns;
    LeaveIsHarmless(o, s, s.i);
    LeaveIsHarmless(o, s, s.i + 1);
    assert HarmlessStack(o.py, s.stack.rest) && HarmlessStack(o.py, Above(InElement(0, false), s.stack));
    if s.i < |text| {
      QuotedIsCalm(o.py, text, s);
      CalmMore(o.py, s.tokens, QuotedToken(text, s));
      IdentifierIsCalm(o, text, s);
      CalmMore(o.py, s.tokens, IdentifierToken(o, text, s));
      CalmMore(o.py, s.tokens, Token(Punctuation, [text[s.i]], s.line, s.i, s.i + 1));
      assert Harmless(o.py, []) && Calm(o.py, []);
    }
  }

  lemma TemplateIsHarmless(py: Python, text: Text, s: State)
    requires Harmless(py, text) && HarmlessState(py, s) && s.i <= |text| && s.stack.Above? && s.stack.top.InTemplate?
    ensures HarmlessState(py, TemplateStep(text, s))
  {
    hide Cook, Inserted, CalmRun;
    var f := s.stack.top;
    CookedAsIs(f.raw, 0);
    assert f.raw[0..] == f.raw;
    assert HarmlessStack(py, s.stack.rest) && HarmlessFrame(py, f);
    var g := f.(raw := [], cooked := f.cooked + Cook(f.raw, 0), interpolated := true);
    assert HarmlessFrame(py, g) ==> HarmlessStack(py, Above(g, s.stack.rest));
    var t := TemplateToken(f.interpolated, f.constant, f.cooked + Cook(f.raw, 0), f.line, f.start, s.i + 1);
    InsertedIsCalm(py, s.tokens, f.first, t);
    assert Harmless(py, []) && Calm(py, f.cooked + f.raw);
  }

  lemma InsertedIsCalm(py: Python, ts: seq<Token>, n: nat, t: Token)
    requires CalmRun(py, ts) && CalmToken(py, t)
    ensures CalmRun(py, Inserted(ts, n, t))
  {
    hide CalmToken;
  }

  lemma NextIsHarmless(o: Setting, text: Text, s: State)
    requires AsciiDigits(o.py) && Harmless(o.py, text) && HarmlessState(o.py, s) && InText(text, s)
    ensures HarmlessState(o.py, Next(o, text, s))
  {
    hide CodeStep, TemplateStep, CalmRun, AsciiDigits, Harmless, PassQuote, Calm, StartsTag;
    if s.stack.Above? {
      assert HarmlessStack(o.py, s.stack.rest);
      match s.stack.top {
        case InCode(_, _, _) => CodeIsHarmless(o, text, s);
        case InTemplate(_, _, _, _, _, _, _) => TemplateIsHarmless(o.py, text, s);
        case InElement(_, _) =>
        case InTag(_, _) => TagIsHarmless(o, text, s);
      }
    }
  }

  lemma TagIsHarmless(o: Setting, text: Text, s: State)
    requires HarmlessState(o.py, s) && s.i <= |text| && s.stack.Above? && s.stack.top.InTag?
    ensures HarmlessState(o.py, TagStep(o, text, s))
  {
    hide CalmRun, QuoteEnd, LineFeeds, LoneReturns, Harmless, Calm;
    var f, rest := s.stack.top, s.stack.rest;
    assert HarmlessStack(o.py, rest);
    if rest.Above? { assert HarmlessStack(o.py, rest.rest); }
    assert HarmlessStack(o.py, Above(f.(last := -2), rest));
  }

  lemma StartIsHarmless(py: Python)
    ensures HarmlessState(py, START)
  {
  }

  lemma {:induction false} RunIsHarmless(o: Setting, text: Text, k: nat)
    requires AsciiDigits(o.py) && Harmless(o.py, text)
    ensures HarmlessState(o.py, After(o, text, k))
  {
    hide Next, AsciiDigits, Harmless, HarmlessState;
    StartIsHarmless(o.py);
    if k > 0 {
      RunIsHarmless(o, text, k - 1);
      NextIsHarmless(o, text, After(o, text, k - 1));
    }
  }

  /** Lexing such a text does not raise. */
  lemma HarmlessTextIsLexed(o: Setting, text: Text)
    requires AsciiDigits(o.py) && Harmless(o.py, text)
    ensures !Fails(o, text)
  {
    hide Next, AsciiDigits, Harmless, HarmlessState;
    if Fails(o, text) {
      var k: nat :| After(o, text, k) == Failed;
      RunIsHarmless(o, text, k);
      FailedIsNot(o.py);
    }
  }

  lemma FailedIsNot(py: Python)
    ensures !HarmlessState(py, Failed)
  {
  }
}
