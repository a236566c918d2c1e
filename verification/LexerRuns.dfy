/** What the run of the TypeScript lexer (scripts/frontend_imports.py) says about the regexes
    and strings it passed, and so about the line of every token. */
module LexerRuns {
  import opened Text
  import opened JsStrings
  import opened Tokens
  import opened ConstEval
  import opened LexerLines
  import opened Identifiers
  import opened LexerMachine
  import opened LexerSpec

  // ------------------------------------------------------------------ where stretches come from

  /** The quoted string at `p` is read in a JSX tag. */
  ghost predicate InSomeTag(o: Setting, text: Text, p: int) {
    exists s :: Meets(o, text, s) && Tags(text, s) && s.i == p
  }

  predicate Spans(t: Token, r: Stretch) { t.kind.StringToken? && t.start == r.lo && t.end == r.hi }

  ghost predicate StringAt(tokens: seq<Token>, r: Stretch) { exists t :: t in tokens && Spans(t, r) }

  /** A regex was passed where an expression can start; a quoted string is the span of a
      string token, or stands in a tag. */
  ghost predicate Accounted(o: Setting, text: Text, tokens: seq<Token>, r: Stretch) {
    match r
    case Regex(lo, hi) => lo < |text| && Guessed(o, text, lo, true) && hi == RegexEnd(o, text, lo + 1, false)
    case Quote(lo, hi) => StringAt(tokens, r) || InSomeTag(o, text, lo)
  }

  ghost predicate AllAccounted(o: Setting, text: Text, s: State) {
    s.Now? ==> forall r :: r in s.passed ==> Accounted(o, text, s.tokens, r)
  }

  /** A step passes nothing, or a regex in code, or a quoted string in code or in a tag; and
      it loses no token. */
  lemma NextPasses(o: Setting, text: Text, s: State)
    requires InText(text, s) && Next(o, text, s).Now? && s.Now?
    ensures var n := Next(o, text, s);
            && (forall t :: t in s.tokens ==> t in n.tokens)
            && (n.passed == s.passed ||
                (Codes(text, s) && o.expressionCanStart(s.tokens, s.stack.top.first) &&
                 n.passed == s.passed + [Regex(s.i, RegexEnd(o, text, s.i + 1, false))]) ||
                (s.i < |text| && n.passed == s.passed + [Quote(s.i, QuoteEnd(text, s.i))] &&
                 (Tags(text, s) || StringAt(n.tokens, Quote(s.i, QuoteEnd(text, s.i))))))
  {
    hide RegexEnd, QuoteEnd, Convertible, InterpolationText, StartsIdentifier, IdentifierToken, LineFeeds, LoneReturns, RawEnd, Cook,
         LineCommentEnd, BlockCommentEnd, IdentifierUnit;
    if Codes(text, s) && (text[s.i] == QUOTE || text[s.i] == DQUOTE) {
      var t := QuotedToken(text, s);
      assert t in s.tokens + [t] && Spans(t, Quote(s.i, QuoteEnd(text, s.i)));
    }
  }

  lemma {:induction false} RunIsAccounted(o: Setting, text: Text, k: nat)
    ensures AllAccounted(o, text, After(o, text, k))
  {
    hide Next, RegexEnd, QuoteEnd, Meets;
    if k > 0 {
      var s := After(o, text, k - 1);
      RunIsAccounted(o, text, k - 1);
      assert Meets(o, text, s) by { MeetsAfter(o, text, k - 1); }
      FailedStays(o, text);
      if s.Now? && Next(o, text, s).Now? { NextIsAccounted(o, text, s); }
    }
  }

  lemma FailedStays(o: Setting, text: Text)
    ensures Next(o, text, Failed) == Failed
  {
  }

  lemma MeetsAfter(o: Setting, text: Text, k: nat)
    ensures Meets(o, text, After(o, text, k))
  {
  }

  lemma NextIsAccounted(o: Setting, text: Text, s: State)
    requires Meets(o, text, s) && s.Now? && Next(o, text, s).Now? && AllAccounted(o, text, s)
    ensures AllAccounted(o, text, Next(o, text, s))
  {
    hide Next, RegexEnd, QuoteEnd, Accounted;
    NextPasses(o, text, s);
    var n := Next(o, text, s);
    forall r | r in n.passed ensures Accounted(o, text, n.tokens, r) {
      if r in s.passed {
        AccountedStays(o, text, s.tokens, n.tokens, r);
      } else {
        NewIsAccounted(o, text, s, n, r);
      }
    }
  }

  lemma AccountedStays(o: Setting, text: Text, a: seq<Token>, b: seq<Token>, r: Stretch)
    requires Accounted(o, text, a, r) && forall t :: t in a ==> t in b
    ensures Accounted(o, text, b, r)
  {
  }

  lemma NewIsAccounted(o: Setting, text: Text, s: State, n: State, r: Stretch)
    requires Meets(o, text, s) && s.Now? && n.Now? && r in n.passed && r !in s.passed && s.i < |text|
    requires (Codes(text, s) && o.expressionCanStart(s.tokens, s.stack.top.first) &&
              n.passed == s.passed + [Regex(s.i, RegexEnd(o, text, s.i + 1, false))]) ||
             (n.passed == s.passed + [Quote(s.i, QuoteEnd(text, s.i))] &&
              (Tags(text, s) || StringAt(n.tokens, Quote(s.i, QuoteEnd(text, s.i)))))
    ensures Accounted(o, text, n.tokens, r)
  {
    hide Meets, RegexEnd, QuoteEnd;
  }

  // ------------------------------------------------------------------ stretches and tokens

  /** A stretch and a token do not overlap, unless the token encloses the stretch or spans it. */
  predicate Apart(r: Stretch, t: Token) {
    r.hi <= t.start || t.end <= r.lo || (t.start < r.lo && r.hi < t.end) || (r.Quote? && Spans(t, r))
  }

  /** The templates still open start before `i`, outside every stretch. */
  predicate Pending(stack: Stack, passed: seq<Stretch>, i: nat) {
    stack.Empty? ||
    (Pending(stack.rest, passed, i) &&
     (stack.top.InTemplate? ==> stack.top.start < i && forall r :: r in passed ==> r.hi <= stack.top.start || stack.top.start < r.lo))
  }

  ghost predicate Kept(s: State) {
    s.Now? ==>
      && Pending(s.stack, s.passed, s.i)
      && (forall r :: r in s.passed ==> r.lo < r.hi <= s.i)
      && (forall t :: t in s.tokens ==> t.end <= s.i)
      && (forall r, t :: r in s.passed && t in s.tokens ==> Apart(r, t))
  }

  lemma {:induction false} PendingStays(stack: Stack, passed: seq<Stretch>, i: nat, more: seq<Stretch>, next: nat)
    requires Pending(stack, passed, i) && i <= next && forall r :: r in more ==> r in passed || i <= r.lo
    ensures Pending(stack, more, next)
    decreases stack
  {
    if stack.Above? { PendingStays(stack.rest, passed, i, more, next); }
  }

  /** The scanner goes on: what was emitted or passed starts where it stood. */
  lemma KeptOn(s: State, n: State)
    requires s.Now? && n.Now? && Kept(s) && s.i <= n.i && Pending(n.stack, n.passed, n.i)
    requires forall r :: r in n.passed ==> r in s.passed || (s.i == r.lo < r.hi <= n.i)
    requires forall t :: t in n.tokens ==> t in s.tokens || (t.start == s.i && t.end <= n.i)
    requires forall r, t :: r in n.passed && r !in s.passed && t in n.tokens && t !in s.tokens ==> r.Quote? && Spans(t, r)
    ensures Kept(n)
  {
    forall r, t | r in n.passed && t in n.tokens ensures Apart(r, t) {
      if r in s.passed && t in s.tokens { assert Apart(r, t); }
    }
  }

  /** What a step emits and passes starts where the scanner stood; both only for a string. */
  predicate StartsHere(s: State, n: State) {
    && s.Now? && n.Now? && s.i <= n.i
    && (forall r :: r in n.passed ==> r in s.passed || (s.i == r.lo < r.hi <= n.i))
    && (forall t :: t in n.tokens ==> t in s.tokens || (t.start == s.i && t.end <= n.i))
    && (forall r, t :: r in n.passed && r !in s.passed && t in n.tokens && t !in s.tokens ==> r.Quote? && Spans(t, r))
  }

  lemma StringStartsHere(text: Text, s: State)
    requires s.Now? && s.i < |text|
    ensures var q := PassQuote(text, s); q.Now? && StartsHere(s, q) && StartsHere(s, q.(tokens := s.tokens + [QuotedToken(text, s)]))
  {
    hide QuoteEnd, LineFeeds, LoneReturns, RawEnd, Cook;
  }

  lemma CodeStartsHere(o: Setting, text: Text, s: State)
    requires s.Now? && s.i <= |text| && s.stack.Above? && s.stack.top.InCode? && CodeStep(o, text, s).Now?
    ensures StartsHere(s, CodeStep(o, text, s))
  {
    hide RegexEnd, PassQuote, QuotedToken, Convertible, InterpolationText, StartsIdentifier, LineFeeds, LineCommentEnd, BlockCommentEnd,
         IdentifierUnit, PartsEnd, PartsValue;
    if s.i < |text| { StringStartsHere(text, s); }
  }

  /** Behind the step the same templates are open, and perhaps one that starts here. */
  lemma CodeLeavesPending(o: Setting, text: Text, s: State)
    requires s.Now? && s.i <= |text| && s.stack.Above? && s.stack.top.InCode? && CodeStep(o, text, s).Now? && Kept(s)
    requires StartsHere(s, CodeStep(o, text, s))
    ensures var n := CodeStep(o, text, s); Pending(n.stack, n.passed, n.i)
  {
    hide RegexEnd, QuotedToken, Convertible, InterpolationText, StartsIdentifier, LineFeeds, LineCommentEnd, BlockCommentEnd,
         IdentifierUnit, PartsEnd, PartsValue, QuoteEnd, LoneReturns, Apart;
    var n := CodeStep(o, text, s);
    PendingStays(s.stack, s.passed, s.i, n.passed, n.i);
  }

  lemma CodeKeeps(o: Setting, text: Text, s: State)
    requires s.Now? && s.i <= |text| && s.stack.Above? && s.stack.top.InCode? && Kept(s) && CodeStep(o, text, s).Now?
    ensures Kept(CodeStep(o, text, s))
  {
    hide CodeStep, Kept, Apart, Spans;
    CodeStartsHere(o, text, s);
    CodeLeavesPending(o, text, s);
    KeptOn(s, CodeStep(o, text, s));
  }

  lemma TagKeeps(o: Setting, text: Text, s: State)
    requires s.Now? && s.i <= |text| && s.stack.Above? && s.stack.top.InTag? && Kept(s)
    ensures Kept(TagStep(o, text, s))
  {
    hide PassQuote, Apart, Spans;
    var n := TagStep(o, text, s);
    if s.i < |text| { StringStartsHere(text, s); }
    PendingStays(s.stack, s.passed, s.i, n.passed, n.i);
    KeptOn(s, n);
  }

  lemma ElementKeeps(o: Setting, text: Text, s: State)
    requires s.Now? && s.i <= |text| && s.stack.Above? && s.stack.top.InElement? && Kept(s)
    ensures Kept(ElementStep(o, text, s))
  {
    hide StartsTag, Apart;
    var n := ElementStep(o, text, s);
    PendingStays(s.stack, s.passed, s.i, n.passed, n.i);
  }

  lemma TemplateKeeps(text: Text, s: State)
    requires s.Now? && s.i <= |text| && s.stack.Above? && s.stack.top.InTemplate? && Kept(s)
    ensures Kept(TemplateStep(text, s))
  {
    hide Cook, Inserted, Apart;
    var n := TemplateStep(text, s);
    PendingStays(s.stack, s.passed, s.i, n.passed, n.i);
    var f := s.stack.top;
    InsertedIsKept(s, TemplateToken(f.interpolated, f.constant, f.cooked + Cook(f.raw, 0), f.line, f.start, s.i + 1));
    assert Pending(s.stack.rest, n.passed, n.i);
    if s.i < |text| && OpensHole(text, s.i) { assert n.stack.Above? && Pending(n.stack.rest, n.passed, n.i); }
  }

  /** A template token encloses every stretch passed since it was opened. */
  lemma InsertedIsKept(s: State, t: Token)
    requires s.Now? && s.stack.Above? && s.stack.top.InTemplate? && Kept(s) && t.start == s.stack.top.start && t.end == s.i + 1
    ensures forall u :: u in Inserted(s.tokens, s.stack.top.first, t) ==> u.end <= s.i + 1
    ensures forall r, u :: r in s.passed && u in Inserted(s.tokens, s.stack.top.first, t) ==> Apart(r, u)
  {
    forall u | u in Inserted(s.tokens, s.stack.top.first, t) ensures u in s.tokens || u == t {}
  }

  lemma {:induction false} RunIsKept(o: Setting, text: Text, k: nat)
    ensures Kept(After(o, text, k))
  {
    hide Kept, CodeStep, TemplateStep, TagStep, ElementStep;
    if k == 0 {
      StartIsKept();
    } else {
      var s := After(o, text, k - 1);
      RunIsKept(o, text, k - 1);
      NextKeeps(o, text, s);
    }
  }

  lemma StartIsKept()
    ensures Kept(START)
  {
  }

  lemma NextKeeps(o: Setting, text: Text, s: State)
    requires InText(text, s) && Kept(s)
    ensures Kept(Next(o, text, s))
  {
    hide Kept, CodeStep, TemplateStep, TagStep, ElementStep;
    FailedIsKept();
    if !Ended(s) {
      match s.stack.top {
        case InCode(_, _, _) => if CodeStep(o, text, s).Now? { CodeKeeps(o, text, s); }
        case InTemplate(_, _, _, _, _, _, _) => TemplateKeeps(text, s);
        case InElement(_, _) => ElementKeeps(o, text, s);
        case InTag(_, _) => TagKeeps(o, text, s);
      }
    }
  }

  lemma FailedIsKept()
    ensures Kept(Failed)
  {
  }

  /** In a result, a regex passed stands where an expression can start, given the tokens before
      it; a quoted string passed spans a string token or stands in a tag; and none overlaps a
      token but a template around it. */
  lemma StretchesAreAccounted(o: Setting, text: Text, passed: seq<Stretch>, tokens: seq<Token>)
    requires Yields(o, text, passed, tokens)
    ensures forall r :: r in passed ==> Accounted(o, text, tokens, r)
    ensures forall r, t :: r in passed && t in tokens ==> Apart(r, t)
  {
    hide Next, Accounted, Apart;
    var line :| Meets(o, text, Now(|text|, line, tokens, passed, Empty));
    var k: nat :| After(o, text, k) == Now(|text|, line, tokens, passed, Empty);
    RunIsAccounted(o, text, k);
    RunIsKept(o, text, k);
  }

  // ------------------------------------------------------------------ lines

  /** A token is on its true line exactly when the drifts before it cancel out. */
  lemma LineIsTrueIff(o: Setting, text: Text, passed: seq<Stretch>, tokens: seq<Token>, t: Token)
    requires Result(o, text, passed, tokens) && t in tokens
    ensures 0 <= t.start <= |text| && StretchesOk(o, text, passed)
    ensures t.lineno == 1 + LineFeeds(text, t.start) <==> DriftBefore(o, text, passed, t.start) == 0
  {
    hide Yields, Good, Reaches, StretchesOk, DriftBefore;
    assert LineOk(o, text, passed, t);
  }

  /** A regex counts a line too few for every line feed in it, a string one too many for every
      lone carriage return that it escapes. */
  lemma DriftIs(o: Setting, text: Text, s: Stretch)
    requires StretchOk(o, text, s)
    ensures s.Regex? ==> Drift(text, s) <= 0 && (Drift(text, s) < 0 <==> exists k :: s.lo <= k < s.hi && text[k] == LF)
    ensures s.Quote? ==> Drift(text, s) == LoneReturns(text, s.lo + 1, s.hi) >= 0
  {
    hide RegexEnd, QuoteEnd;
    if s.Regex? {
      LineFeedsMonotone(text, s.lo, s.hi);
      if k :| s.lo <= k < s.hi && text[k] == LF {
        LineFeedsMonotone(text, s.lo, k);
        LineFeedsMonotone(text, k + 1, s.hi);
        assert LineFeeds(text, k + 1) == LineFeeds(text, k) + 1;
      } else {
        NoLineFeeds(text, s.lo, s.hi);
      }
    }
  }

  /** A regex that ends by `p` and holds a line feed. */
  ghost predicate BrokenRegexBefore(text: Text, passed: seq<Stretch>, p: int) {
    exists i, k :: 0 <= i < |passed| && passed[i].Regex? && passed[i].hi <= p && passed[i].lo <= k < passed[i].hi && k < |text| && text[k] == LF
  }

  lemma {:induction false} DriftWithoutReturns(o: Setting, text: Text, passed: seq<Stretch>, p: int)
    requires StretchesOk(o, text, passed) && forall k :: 0 <= k < |text| ==> text[k] != CR
    ensures DriftBefore(o, text, passed, p) <= 0
    ensures DriftBefore(o, text, passed, p) < 0 <==> BrokenRegexBefore(text, passed, p)
    decreases |passed|
  {
    hide Drift, StretchOk;
    if passed != [] {
      var init, last := passed[..|passed| - 1], passed[|passed| - 1];
      DriftWithoutReturns(o, text, init, p);
      assert StretchOk(o, text, last);
      StretchAdvances(o, text, last);
      DriftIs(o, text, last);
      NoLoneReturns(text, last.lo + 1, last.hi);
      BrokenInit(text, passed, p);
    }
  }

  lemma {:induction false} NoLoneReturns(text: Text, i: nat, hi: nat)
    requires hi <= |text| && forall k :: 0 <= k < |text| ==> text[k] != CR
    ensures LoneReturns(text, i, hi) == 0
    decreases hi - i
  {
    if i < hi {
      NoLoneReturns(text, i + 1, hi);
      NoLoneReturns(text, i + 2, hi);
    }
  }

  lemma BrokenInit(text: Text, passed: seq<Stretch>, p: int)
    requires passed != []
    ensures var last := passed[|passed| - 1];
            BrokenRegexBefore(text, passed, p) <==>
              BrokenRegexBefore(text, passed[..|passed| - 1], p) ||
              (last.Regex? && last.hi <= p && exists k :: last.lo <= k < last.hi && k < |text| && text[k] == LF)
  {
    var init, last := passed[..|passed| - 1], passed[|passed| - 1];
    if i, k :| 0 <= i < |init| && init[i].Regex? && init[i].hi <= p && init[i].lo <= k < init[i].hi && k < |text| && text[k] == LF {
      assert passed[i] == init[i];
    }
    if i, k :| 0 <= i < |passed| && passed[i].Regex? && passed[i].hi <= p && passed[i].lo <= k < passed[i].hi && k < |text| && text[k] == LF {
      if i < |init| { assert init[i] == passed[i]; }
    }
  }

  /** Without carriage returns no line is too high, and a line is too low exactly when a regex
      that ends before the token holds a line feed. */
  lemma LineIsLateIff(o: Setting, text: Text, passed: seq<Stretch>, tokens: seq<Token>, t: Token)
    requires Result(o, text, passed, tokens) && t in tokens && forall k :: 0 <= k < |text| ==> text[k] != CR
    ensures 0 <= t.start <= |text| && t.lineno <= 1 + LineFeeds(text, t.start)
    ensures t.lineno < 1 + LineFeeds(text, t.start) <==> BrokenRegexBefore(text, passed, t.start)
  {
    hide Yields, Good, Reaches, StretchesOk, DriftBefore, BrokenRegexBefore;
    assert LineOk(o, text, passed, t);
    DriftWithoutReturns(o, text, passed, t.start);
  }
}
