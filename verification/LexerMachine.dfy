/** The TypeScript lexer (scripts/frontend_imports.py) as a machine: one step reads one lexeme,
    and an explicit stack holds what the mutually recursive scanners keep in their calls. A
    text has at most one run, so it has at most one result. */
module LexerMachine {
  import opened Text
  import opened JsStrings
  import opened Tokens
  import opened ConstEval
  import opened LexerLines
  import opened Identifiers

  /** What a scanner that waits keeps: `_scan_code`, `_scan_template`, `_scan_jsx` and
      `_scan_jsx_tag`. */
  datatype Frame =
    | InCode(first: nat, depth: nat, stop: bool)
    | InTemplate(start: nat, line: int, first: nat, raw: Text, cooked: Text, interpolated: bool, constant: bool)
    | InElement(level: int, begun: bool)
    | InTag(closing: bool, last: int)

  datatype Stack = Empty | Above(top: Frame, rest: Stack)

  /** Evaluating an interpolation has raised, or scanning goes on at `i`. */
  datatype State = Failed | Now(i: nat, line: int, tokens: seq<Token>, passed: seq<Stretch>, stack: Stack)

  predicate InText(text: Text, s: State) { s.Now? ==> s.i <= |text| }

  predicate Ended(s: State) { s.Failed? || s.stack.Empty? }

  /** Scanning code, with more text to come. */
  predicate Codes(text: Text, s: State) { s.Now? && s.i < |text| && s.stack.Above? && s.stack.top.InCode? }

  // ------------------------------------------------------------------ lexemes

  /** Evaluating the run of tokens, and converting what it is to a string, does not raise. */
  predicate Convertible(py: Python, run: seq<Token>) {
    var v := ConstantExpressionValue(py, run);
    !v.Raises? && (v.Known? ==> JavascriptString(py, v.v).Some?)
  }

  /** What an interpolation contributes, when it is a constant. */
  function InterpolationText(py: Python, run: seq<Token>): Option<Text> {
    var v := ConstantExpressionValue(py, run);
    if v.Known? then JavascriptString(py, v.v) else None
  }

  predicate StarSlash(text: Text, k: nat) {
    k + 1 < |text| && text[k] == STAR && text[k + 1] == SLASH
  }

  function LineCommentEnd(text: Text, i: nat): (r: nat)
    requires i <= |text|
    ensures i <= r <= |text|
    decreases |text| - i
  {
    if i < |text| && text[i] != LF then LineCommentEnd(text, i + 1) else i
  }

  function BlockCommentEnd(text: Text, i: nat): (r: nat)
    requires i <= |text|
    ensures i <= r <= |text|
    decreases |text| - i
  {
    if i == |text| then i else if StarSlash(text, i) then i + 2 else BlockCommentEnd(text, i + 1)
  }

  /** The token of a finished template. */
  function TemplateToken(holes: bool, constant: bool, value: Text, lineno: int, start: int, end: int): Token {
    if !holes then Token(StringToken, value, lineno, start, end)
    else Token(if constant then ConstantTemplate else ComputedTemplate, if constant then value else [], lineno, start, end)
  }

  predicate ClosesTag(text: Text, i: nat) { i + 1 < |text| && text[i + 1] == SLASH }

  /** Behind `<` or `</`. */
  function TagBody(text: Text, i: nat): (r: nat)
    requires i < |text|
    ensures i < r <= |text|
  {
    if ClosesTag(text, i) then i + 2 else i + 1
  }

  function Feed(c: int): int { if c == LF then 1 else 0 }

  /** The quoted string at `s.i` is passed. */
  function PassQuote(text: Text, s: State): (r: State)
    requires s.Now? && s.i < |text|
    ensures r.Now? && r.stack == s.stack && r.tokens == s.tokens && s.i < r.i <= |text|
  {
    var e := QuoteEnd(text, s.i);
    s.(i := e, line := s.line + LineFeeds(text, e) - LineFeeds(text, s.i) + LoneReturns(text, s.i + 1, e),
       passed := s.passed + [Quote(s.i, e)])
  }

  function QuotedToken(text: Text, s: State): Token
    requires s.Now? && s.i < |text|
  {
    Token(StringToken, Cook(text[s.i + 1..RawEnd(text, s.i + 1, Quoted(text[s.i]))], 0), s.line, s.i, QuoteEnd(text, s.i))
  }

  function IdentifierToken(o: Setting, text: Text, s: State): (t: Token)
    requires s.Now? && s.i < |text|
    ensures s.i < t.end <= |text|
  {
    var (c, next) := IdentifierUnit(text, s.i);
    Token(Identifier, [c] + PartsValue(o, text, next), s.line, s.i, PartsEnd(o, text, next))
  }

  /** The brace depth behind a character of code. */
  function DepthAfter(f: Frame, c: int): (r: nat)
    requires f.InCode?
  {
    if f.stop && c == LBRACE then f.depth + 1 else if f.stop && c == RBRACE && f.depth > 0 then f.depth - 1 else f.depth
  }

  // ------------------------------------------------------------------ steps

  /** The code on top of the stack ends before `next`. If it was interpolated, its tokens are
      evaluated. */
  function Leave(o: Setting, s: State, next: nat): (r: State)
    requires s.Now? && s.stack.Above? && s.stack.top.InCode?
    ensures r.Now? ==> r.i == next
  {
    var n, rest := s.stack.top.first, s.stack.rest;
    if rest.Above? && rest.top.InTemplate? && n <= |s.tokens| then
      var run, f := s.tokens[n..], rest.top;
      if !Convertible(o.py, run) then Failed
      else
        var v := InterpolationText(o.py, run);
        s.(i := next, stack := Above(if v.None? then f.(constant := false) else f.(cooked := f.cooked + v.value), rest.rest))
    else s.(i := next, stack := rest)
  }

  function CodeStep(o: Setting, text: Text, s: State): (r: State)
    requires s.Now? && s.i <= |text| && s.stack.Above? && s.stack.top.InCode?
    ensures InText(text, r)
  {
    if s.i == |text| then Leave(o, s, s.i)
    else
      var i, c, f := s.i, text[s.i], s.stack.top;
      if o.space(c) then s.(i := i + 1, line := s.line + Feed(c))
      else if c == SLASH && i + 1 < |text| && text[i + 1] == SLASH then s.(i := LineCommentEnd(text, i + 2))
      else if c == SLASH && i + 1 < |text| && text[i + 1] == STAR then
        var e := BlockCommentEnd(text, i + 2);
        s.(i := e, line := s.line + LineFeeds(text, e) - LineFeeds(text, i))
      else if c == QUOTE || c == DQUOTE then PassQuote(text, s).(tokens := s.tokens + [QuotedToken(text, s)])
      else if c == BACKTICK then s.(i := i + 1, stack := Above(InTemplate(i, s.line, |s.tokens|, [], [], false, true), s.stack))
      else if c == SLASH && o.expressionCanStart(s.tokens, f.first) then
        var e := RegexEnd(o, text, i + 1, false);
        s.(i := e, passed := s.passed + [Regex(i, e)])
      else if o.jsx && c == LESS && o.looksLikeJsx(s.tokens, i, f.first) then
        s.(i := TagBody(text, i), stack := Above(InTag(ClosesTag(text, i), 0), Above(InElement(0, false), s.stack)))
      else if StartsIdentifier(o, text, i) then
        var t := IdentifierToken(o, text, s);
        s.(i := t.end, tokens := s.tokens + [t])
      else if c == RBRACE && f.stop && f.depth == 0 then Leave(o, s, i + 1)
      else
        s.(i := i + 1, tokens := s.tokens + [Token(Punctuation, [c], s.line, i, i + 1)],
           stack := Above(f.(depth := DepthAfter(f, c)), s.stack.rest))
  }

  /** The tokens with a template token in front of those of its interpolations. */
  function Inserted(tokens: seq<Token>, n: nat, t: Token): seq<Token> {
    if n <= |tokens| then tokens[..n] + [t] + tokens[n..] else tokens + [t]
  }

  function TemplateStep(text: Text, s: State): (r: State)
    requires s.Now? && s.i <= |text| && s.stack.Above? && s.stack.top.InTemplate?
    ensures InText(text, r)
  {
    var i, f, rest := s.i, s.stack.top, s.stack.rest;
    if i == |text| then s.(stack := rest)
    else
      var c := text[i];
      if c == BACKSLASH && i + 1 < |text| then
        s.(i := i + 2, line := s.line + Feed(text[i + 1]), stack := Above(f.(raw := f.raw + [c, text[i + 1]]), rest))
      else if c == BACKTICK then
        var t := TemplateToken(f.interpolated, f.constant, f.cooked + Cook(f.raw, 0), f.line, f.start, i + 1);
        s.(i := i + 1, tokens := Inserted(s.tokens, f.first, t), stack := rest)
      else if c == DOLLAR && i + 1 < |text| && text[i + 1] == LBRACE then
        var g := f.(raw := [], cooked := f.cooked + Cook(f.raw, 0), interpolated := true);
        s.(i := i + 2, stack := Above(InCode(|s.tokens|, 0, true), Above(g, rest)))
      else s.(i := i + 1, line := s.line + Feed(c), stack := Above(f.(raw := f.raw + [c]), rest))
  }

  /** A tag ends: the element it belongs to goes on, deeper or less deep, or ends with it. */
  function TagEnds(s: State, next: nat, rest: Stack, closing: bool, selfClosing: bool): (r: State)
    requires s.Now?
    ensures r.Now? && r.i == next
  {
    if rest.Empty? || !rest.top.InElement? then s.(i := next, stack := rest)
    else if rest.top.begun then
      var d := if closing then -1 else if selfClosing then 0 else 1;
      s.(i := next, stack := Above(InElement(rest.top.level + d, true), rest.rest))
    else if closing || selfClosing then s.(i := next, stack := rest.rest)
    else s.(i := next, stack := Above(InElement(1, true), rest.rest))
  }

  function TagStep(o: Setting, text: Text, s: State): (r: State)
    requires s.Now? && s.i <= |text| && s.stack.Above? && s.stack.top.InTag?
    ensures InText(text, r)
  {
    var i, f, rest := s.i, s.stack.top, s.stack.rest;
    if i == |text| then TagEnds(s, i, rest, f.closing, false)
    else
      var c := text[i];
      if c == QUOTE || c == DQUOTE then PassQuote(text, s).(stack := Above(f.(last := -1), rest))
      else if c == LBRACE && !f.closing then
        s.(i := i + 1, stack := Above(InCode(|s.tokens|, 0, true), Above(f.(last := -2), rest)))
      else if c == GREATER then TagEnds(s, i + 1, rest, f.closing, f.last == SLASH)
      else s.(i := i + 1, line := s.line + Feed(c), stack := Above(f.(last := if o.space(c) then f.last else c), rest))
  }

  /** A tag starts inside an element. */
  predicate StartsTag(o: Setting, text: Text, i: nat)
    requires i < |text|
  {
    text[i] == LESS && i + 1 < |text| && (text[i + 1] == SLASH || text[i + 1] == GREATER || IdentifierStart(o, text[i + 1]))
  }

  function ElementStep(o: Setting, text: Text, s: State): (r: State)
    requires s.Now? && s.i <= |text| && s.stack.Above? && s.stack.top.InElement?
    ensures InText(text, r)
  {
    var i, f, rest := s.i, s.stack.top, s.stack.rest;
    if i == |text| || f.level == 0 then s.(stack := rest)
    else
      var c := text[i];
      if c == LBRACE then s.(i := i + 1, stack := Above(InCode(|s.tokens|, 0, true), s.stack))
      else if StartsTag(o, text, i) then s.(i := TagBody(text, i), stack := Above(InTag(ClosesTag(text, i), 0), s.stack))
      else s.(i := i + 1, line := s.line + Feed(c))
  }

  function Next(o: Setting, text: Text, s: State): (r: State)
    requires InText(text, s)
    ensures InText(text, r)
  {
    if Ended(s) then s
    else
      match s.stack.top
      case InCode(_, _, _) => CodeStep(o, text, s)
      case InTemplate(_, _, _, _, _, _, _) => TemplateStep(text, s)
      case InElement(_, _) => ElementStep(o, text, s)
      case InTag(_, _) => TagStep(o, text, s)
  }

  // ------------------------------------------------------------------ runs

  const START: State := Now(0, 1, [], [], Above(InCode(0, 0, false), Empty))

  function After(o: Setting, text: Text, k: nat): (s: State)
    ensures InText(text, s)
  {
    if k == 0 then START else Next(o, text, After(o, text, k - 1))
  }

  /** The run of the text meets the state. */
  ghost predicate Meets(o: Setting, text: Text, s: State) {
    InText(text, s) && exists k: nat :: After(o, text, k) == s
  }

  lemma MeetsStart(o: Setting, text: Text)
    ensures Meets(o, text, START)
  {
    assert After(o, text, 0) == START;
  }

  lemma MeetsNext(o: Setting, text: Text, s: State)
    requires Meets(o, text, s)
    ensures Meets(o, text, Next(o, text, s))
  {
    hide Next;
    var k: nat :| After(o, text, k) == s;
    assert After(o, text, k + 1) == Next(o, text, s);
  }

  lemma {:induction false} EndedStays(o: Setting, text: Text, j: nat, k: nat)
    requires j <= k && Ended(After(o, text, j))
    ensures After(o, text, k) == After(o, text, j)
    decreases k - j
  {
    if j < k { EndedStays(o, text, j, k - 1); }
  }

  /** A run ends in at most one way. */
  lemma OneEnd(o: Setting, text: Text, a: State, b: State)
    requires Meets(o, text, a) && Meets(o, text, b) && Ended(a) && Ended(b)
    ensures a == b
  {
    hide Next;
    var j: nat :| After(o, text, j) == a;
    var k: nat :| After(o, text, k) == b;
    if j <= k { EndedStays(o, text, j, k); } else { EndedStays(o, text, k, j); }
  }

  /** The run raises. */
  ghost predicate Fails(o: Setting, text: Text) { Meets(o, text, Failed) }

  /** The run ends with these tokens and stretches passed. */
  ghost predicate Yields(o: Setting, text: Text, passed: seq<Stretch>, tokens: seq<Token>) {
    exists line :: Meets(o, text, Now(|text|, line, tokens, passed, Empty))
  }

  /** The result of a text is unique: tokens, their lines and the stretches passed. */
  lemma YieldsOnce(o: Setting, text: Text, p: seq<Stretch>, a: seq<Token>, q: seq<Stretch>, b: seq<Token>)
    requires Yields(o, text, p, a)
    ensures !Fails(o, text)
    ensures Yields(o, text, q, b) ==> p == q && a == b
  {
    var line :| Meets(o, text, Now(|text|, line, a, p, Empty));
    if Fails(o, text) { OneEnd(o, text, Now(|text|, line, a, p, Empty), Failed); }
    if Yields(o, text, q, b) {
      var other :| Meets(o, text, Now(|text|, other, b, q, Empty));
      OneEnd(o, text, Now(|text|, line, a, p, Empty), Now(|text|, other, b, q, Empty));
    }
  }

  /** At the slash at `p` the lexer asks whether an expression can start, given the tokens
      before it and the first token of its code, and the answer is `answer`. */
  ghost predicate Guessed(o: Setting, text: Text, p: int, answer: bool) {
    exists s :: Meets(o, text, s) && Codes(text, s) && s.i == p && o.expressionCanStart(s.tokens, s.stack.top.first) == answer
  }

  // ------------------------------------------------------------------ single steps

  lemma CodeSteps(o: Setting, text: Text, s: State)
    requires Meets(o, text, s) && Codes(text, s)
    ensures Meets(o, text, CodeStep(o, text, s))
  {
    hide CodeStep;
    MeetsNext(o, text, s);
  }

  lemma StepSpace(o: Setting, text: Text, s: State)
    requires Meets(o, text, s) && Codes(text, s) && o.space(text[s.i])
    ensures Meets(o, text, s.(i := s.i + 1, line := s.line + Feed(text[s.i])))
  {
    CodeSteps(o, text, s);
  }

  lemma StepLineComment(o: Setting, text: Text, s: State)
    requires Meets(o, text, s) && Codes(text, s) && !o.space(text[s.i])
    requires s.i + 1 < |text| && text[s.i] == SLASH && text[s.i + 1] == SLASH
    ensures Meets(o, text, s.(i := LineCommentEnd(text, s.i + 2)))
  {
    CodeSteps(o, text, s);
  }

  lemma StepBlockComment(o: Setting, text: Text, s: State)
    requires Meets(o, text, s) && Codes(text, s) && !o.space(text[s.i])
    requires s.i + 1 < |text| && text[s.i] == SLASH && text[s.i + 1] == STAR
    ensures var e := BlockCommentEnd(text, s.i + 2);
            Meets(o, text, s.(i := e, line := s.line + LineFeeds(text, e) - LineFeeds(text, s.i)))
  {
    CodeSteps(o, text, s);
  }

  lemma StepQuoted(o: Setting, text: Text, s: State)
    requires Meets(o, text, s) && Codes(text, s) && !o.space(text[s.i]) && (text[s.i] == QUOTE || text[s.i] == DQUOTE)
    ensures var q := PassQuote(text, s); q.Now? && Meets(o, text, q.(tokens := s.tokens + [QuotedToken(text, s)]))
  {
    hide QuotedToken;
    CodeSteps(o, text, s);
  }

  lemma StepBacktick(o: Setting, text: Text, s: State)
    requires Meets(o, text, s) && Codes(text, s) && !o.space(text[s.i]) && text[s.i] == BACKTICK
    ensures Meets(o, text, s.(i := s.i + 1, stack := Above(InTemplate(s.i, s.line, |s.tokens|, [], [], false, true), s.stack)))
  {
    CodeSteps(o, text, s);
  }

  /** No white space, comment, string or template starts here. */
  predicate PastLiterals(o: Setting, text: Text, s: State)
    requires Codes(text, s)
  {
    && !o.space(text[s.i]) && text[s.i] != QUOTE && text[s.i] != DQUOTE && text[s.i] != BACKTICK
    && !(text[s.i] == SLASH && s.i + 1 < |text| && (text[s.i + 1] == SLASH || text[s.i + 1] == STAR))
  }

  lemma StepRegex(o: Setting, text: Text, s: State)
    requires Meets(o, text, s) && Codes(text, s) && PastLiterals(o, text, s)
    requires text[s.i] == SLASH && o.expressionCanStart(s.tokens, s.stack.top.first)
    ensures var e := RegexEnd(o, text, s.i + 1, false); Meets(o, text, s.(i := e, passed := s.passed + [Regex(s.i, e)]))
  {
    hide RegexEnd;
    CodeSteps(o, text, s);
  }

  lemma StepElement(o: Setting, text: Text, s: State)
    requires Meets(o, text, s) && Codes(text, s) && PastLiterals(o, text, s)
    requires o.jsx && text[s.i] == LESS && o.looksLikeJsx(s.tokens, s.i, s.stack.top.first)
    ensures Meets(o, text, s.(i := TagBody(text, s.i),
                              stack := Above(InTag(ClosesTag(text, s.i), 0), Above(InElement(0, false), s.stack))))
  {
    CodeSteps(o, text, s);
  }

  /** And no regex and no JSX either. */
  predicate PastGuesses(o: Setting, text: Text, s: State)
    requires Codes(text, s)
  {
    && PastLiterals(o, text, s)
    && !(text[s.i] == SLASH && o.expressionCanStart(s.tokens, s.stack.top.first))
    && !(o.jsx && text[s.i] == LESS && o.looksLikeJsx(s.tokens, s.i, s.stack.top.first))
  }

  lemma StepIdentifier(o: Setting, text: Text, s: State)
    requires Meets(o, text, s) && Codes(text, s) && PastGuesses(o, text, s) && StartsIdentifier(o, text, s.i)
    ensures var t := IdentifierToken(o, text, s); Meets(o, text, s.(i := t.end, tokens := s.tokens + [t]))
  {
    hide IdentifierToken, StartsIdentifier;
    CodeSteps(o, text, s);
  }

  predicate ClosesCode(text: Text, s: State)
    requires Codes(text, s)
  {
    text[s.i] == RBRACE && s.stack.top.stop && s.stack.top.depth == 0
  }

  lemma StepMark(o: Setting, text: Text, s: State)
    requires Meets(o, text, s) && Codes(text, s) && PastGuesses(o, text, s) && !StartsIdentifier(o, text, s.i) && !ClosesCode(text, s)
    ensures var c, f := text[s.i], s.stack.top;
            Meets(o, text, s.(i := s.i + 1, tokens := s.tokens + [Token(Punctuation, [c], s.line, s.i, s.i + 1)],
                              stack := Above(f.(depth := DepthAfter(f, c)), s.stack.rest)))
  {
    hide StartsIdentifier;
    CodeSteps(o, text, s);
  }

  /** The run meets `s`, and there the code on top of the stack ends before `next`. */
  ghost predicate Leaving(o: Setting, text: Text, s: State, next: nat) {
    && Meets(o, text, s) && s.Now? && s.stack.Above? && s.stack.top.InCode?
    && (s.i == next == |text| ||
        (s.i + 1 == next <= |text| && PastGuesses(o, text, s) && !StartsIdentifier(o, text, s.i) && ClosesCode(text, s)))
  }

  lemma StepLeave(o: Setting, text: Text, s: State, next: nat)
    requires Leaving(o, text, s, next)
    ensures Meets(o, text, Leave(o, s, next))
  {
    hide Leave, StartsIdentifier;
    MeetsNext(o, text, s);
  }

  /** Code that was not interpolated ends. */
  lemma StepBack(o: Setting, text: Text, s: State, next: nat)
    requires Leaving(o, text, s, next) && !(s.stack.rest.Above? && s.stack.rest.top.InTemplate?)
    ensures Meets(o, text, s.(i := next, stack := s.stack.rest))
  {
    hide Meets, Leaving;
    StepLeave(o, text, s, next);
  }

  /** The tokens of an interpolation that ends at `hi`, when they are evaluated. */
  ghost predicate Evaluates(o: Setting, text: Text, hi: nat, run: seq<Token>) {
    exists s, next :: Leaving(o, text, s, next) && s.i == hi && EvaluatesAt(s, run)
  }

  predicate EvaluatesAt(s: State, run: seq<Token>)
    requires s.Now? && s.stack.Above? && s.stack.top.InCode?
  {
    s.stack.rest.Above? && s.stack.rest.top.InTemplate? && s.stack.top.first <= |s.tokens| && s.tokens[s.stack.top.first..] == run
  }

  predicate Templates(text: Text, s: State) { s.Now? && s.i < |text| && s.stack.Above? && s.stack.top.InTemplate? }

  lemma TemplateSteps(o: Setting, text: Text, s: State)
    requires Meets(o, text, s) && s.Now? && s.stack.Above? && s.stack.top.InTemplate?
    ensures Meets(o, text, TemplateStep(text, s))
  {
    hide TemplateStep;
    MeetsNext(o, text, s);
  }

  lemma StepTemplateEnd(o: Setting, text: Text, s: State)
    requires Meets(o, text, s) && s.Now? && s.stack.Above? && s.stack.top.InTemplate? && s.i == |text|
    ensures Meets(o, text, s.(stack := s.stack.rest))
  {
    TemplateSteps(o, text, s);
  }

  lemma StepTemplateEscape(o: Setting, text: Text, s: State)
    requires Meets(o, text, s) && Templates(text, s) && text[s.i] == BACKSLASH && s.i + 1 < |text|
    ensures var f := s.stack.top;
            Meets(o, text, s.(i := s.i + 2, line := s.line + Feed(text[s.i + 1]),
                              stack := Above(f.(raw := f.raw + [text[s.i], text[s.i + 1]]), s.stack.rest)))
  {
    TemplateSteps(o, text, s);
  }

  lemma StepTemplateClose(o: Setting, text: Text, s: State)
    requires Meets(o, text, s) && Templates(text, s) && text[s.i] == BACKTICK
    ensures var f := s.stack.top;
            var t := TemplateToken(f.interpolated, f.constant, f.cooked + Cook(f.raw, 0), f.line, f.start, s.i + 1);
            Meets(o, text, s.(i := s.i + 1, tokens := Inserted(s.tokens, f.first, t), stack := s.stack.rest))
  {
    hide Inserted, TemplateToken, Cook;
    TemplateSteps(o, text, s);
  }

  predicate OpensHole(text: Text, i: nat) { i + 1 < |text| && text[i] == DOLLAR && text[i + 1] == LBRACE }

  lemma StepTemplateHole(o: Setting, text: Text, s: State)
    requires Meets(o, text, s) && Templates(text, s) && OpensHole(text, s.i)
    ensures var f := s.stack.top;
            Meets(o, text, s.(i := s.i + 2,
                              stack := Above(InCode(|s.tokens|, 0, true),
                                             Above(f.(raw := [], cooked := f.cooked + Cook(f.raw, 0), interpolated := true), s.stack.rest))))
  {
    hide Cook;
    TemplateSteps(o, text, s);
  }

  lemma StepTemplatePlain(o: Setting, text: Text, s: State)
    requires Meets(o, text, s) && Templates(text, s) && !(text[s.i] == BACKSLASH && s.i + 1 < |text|)
    requires text[s.i] != BACKTICK && !OpensHole(text, s.i)
    ensures var f := s.stack.top;
            Meets(o, text, s.(i := s.i + 1, line := s.line + Feed(text[s.i]),
                              stack := Above(f.(raw := f.raw + [text[s.i]]), s.stack.rest)))
  {
    TemplateSteps(o, text, s);
  }

  predicate Tags(text: Text, s: State) { s.Now? && s.i < |text| && s.stack.Above? && s.stack.top.InTag? }

  lemma TagSteps(o: Setting, text: Text, s: State)
    requires Meets(o, text, s) && s.Now? && s.stack.Above? && s.stack.top.InTag?
    ensures Meets(o, text, TagStep(o, text, s))
  {
    hide TagStep;
    MeetsNext(o, text, s);
  }

  lemma StepTagEnd(o: Setting, text: Text, s: State)
    requires Meets(o, text, s) && s.Now? && s.stack.Above? && s.stack.top.InTag? && s.i == |text|
    ensures Meets(o, text, TagEnds(s, s.i, s.stack.rest, s.stack.top.closing, false))
  {
    hide TagEnds;
    TagSteps(o, text, s);
  }

  lemma StepTagQuote(o: Setting, text: Text, s: State)
    requires Meets(o, text, s) && Tags(text, s) && (text[s.i] == QUOTE || text[s.i] == DQUOTE)
    ensures var q := PassQuote(text, s); q.Now? && Meets(o, text, q.(stack := Above(s.stack.top.(last := -1), s.stack.rest)))
  {
    TagSteps(o, text, s);
  }

  lemma StepTagBrace(o: Setting, text: Text, s: State)
    requires Meets(o, text, s) && Tags(text, s) && text[s.i] == LBRACE && !s.stack.top.closing
    ensures Meets(o, text, s.(i := s.i + 1, stack := Above(InCode(|s.tokens|, 0, true), Above(s.stack.top.(last := -2), s.stack.rest))))
  {
    TagSteps(o, text, s);
  }

  lemma StepTagCloses(o: Setting, text: Text, s: State)
    requires Meets(o, text, s) && Tags(text, s) && text[s.i] == GREATER
    ensures Meets(o, text, TagEnds(s, s.i + 1, s.stack.rest, s.stack.top.closing, s.stack.top.last == SLASH))
  {
    hide TagEnds;
    TagSteps(o, text, s);
  }

  lemma StepTagPlain(o: Setting, text: Text, s: State)
    requires Meets(o, text, s) && Tags(text, s) && text[s.i] != QUOTE && text[s.i] != DQUOTE && text[s.i] != GREATER
    requires !(text[s.i] == LBRACE && !s.stack.top.closing)
    ensures var f, c := s.stack.top, text[s.i];
            Meets(o, text, s.(i := s.i + 1, line := s.line + Feed(c),
                              stack := Above(f.(last := if o.space(c) then f.last else c), s.stack.rest)))
  {
    TagSteps(o, text, s);
  }

  predicate Elements(text: Text, s: State) { s.Now? && s.i < |text| && s.stack.Above? && s.stack.top.InElement? && s.stack.top.level != 0 }

  lemma ElementSteps(o: Setting, text: Text, s: State)
    requires Meets(o, text, s) && s.Now? && s.stack.Above? && s.stack.top.InElement?
    ensures Meets(o, text, ElementStep(o, text, s))
  {
    hide ElementStep;
    MeetsNext(o, text, s);
  }

  lemma StepElementEnd(o: Setting, text: Text, s: State)
    requires Meets(o, text, s) && s.Now? && s.stack.Above? && s.stack.top.InElement? && (s.i == |text| || s.stack.top.level == 0)
    ensures Meets(o, text, s.(stack := s.stack.rest))
  {
    ElementSteps(o, text, s);
  }

  lemma StepElementBrace(o: Setting, text: Text, s: State)
    requires Meets(o, text, s) && Elements(text, s) && text[s.i] == LBRACE
    ensures Meets(o, text, s.(i := s.i + 1, stack := Above(InCode(|s.tokens|, 0, true), s.stack)))
  {
    ElementSteps(o, text, s);
  }

  lemma StepElementTag(o: Setting, text: Text, s: State)
    requires Meets(o, text, s) && Elements(text, s) && text[s.i] != LBRACE && StartsTag(o, text, s.i)
    ensures Meets(o, text, s.(i := TagBody(text, s.i), stack := Above(InTag(ClosesTag(text, s.i), 0), s.stack)))
  {
    hide StartsTag;
    ElementSteps(o, text, s);
  }

  lemma StepElementPlain(o: Setting, text: Text, s: State)
    requires Meets(o, text, s) && Elements(text, s) && text[s.i] != LBRACE && !StartsTag(o, text, s.i)
    ensures Meets(o, text, s.(i := s.i + 1, line := s.line + Feed(text[s.i])))
  {
    hide StartsTag;
    ElementSteps(o, text, s);
  }

  // ------------------------------------------------------------------ what the scanners need

  /** The whole text is scanned. */
  lemma LeavesAll(o: Setting, text: Text, s: State)
    requires Leaving(o, text, s, |text|) && s.i == |text| && s.stack.rest.Empty?
    ensures Yields(o, text, s.passed, s.tokens)
  {
    hide Meets;
    StepBack(o, text, s, |text|);
    assert Meets(o, text, Now(|text|, s.line, s.tokens, s.passed, Empty));
  }

  /** An interpolation ends: it raises, or its template goes on with its string. */
  lemma InterpolationLeaves(o: Setting, text: Text, s: State, next: nat)
    requires Leaving(o, text, s, next) && s.stack.rest.Above? && s.stack.rest.top.InTemplate? && s.stack.top.first <= |s.tokens|
    ensures var run, f := s.tokens[s.stack.top.first..], s.stack.rest.top;
            && Evaluates(o, text, s.i, run)
            && (!Convertible(o.py, run) ==> Fails(o, text))
            && (Convertible(o.py, run) ==>
                  var v := InterpolationText(o.py, run);
                  Meets(o, text, s.(i := next, stack := Above(if v.None? then f.(constant := false) else f.(cooked := f.cooked + v.value),
                                                              s.stack.rest.rest))))
  {
    hide Meets, Convertible, InterpolationText;
    StepLeave(o, text, s, next);
    assert EvaluatesAt(s, s.tokens[s.stack.top.first..]);
  }

  lemma EndsThere(s: State, t: State, next: nat, rest: Stack, closing: bool, selfClosing: bool)
    requires s.Now? && t == Now(next, s.line, s.tokens, s.passed, rest)
    ensures TagEnds(s, next, rest, closing, selfClosing) == TagEnds(t, next, rest, closing, selfClosing)
  {
  }

  lemma TagStartsLess(o: Setting, text: Text, i: nat)
    requires i < |text| && StartsTag(o, text, i)
    ensures text[i] == LESS
  {
  }

  /** A slash that becomes a token of its own was guessed to be no regex. */
  lemma SlashIsDecided(o: Setting, text: Text, s: State)
    requires Meets(o, text, s) && Codes(text, s) && PastGuesses(o, text, s)
    ensures text[s.i] == SLASH ==> Guessed(o, text, s.i, false)
  {
    hide Meets;
  }
}
