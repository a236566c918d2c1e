/** The TypeScript lexer `_TypeScriptLexer` (scripts/frontend_imports.py): mutually recursive
    scanners for code, quoted strings, templates, regexes and JSX over one shared token list.
    Evaluating an interpolation may raise; then so does the scanner that met it. */
module Lexer {
  import opened Text
  import opened JsStrings
  import opened Prefilter
  import opened Tokens
  import opened ConstEval
  import opened Assembly
  import opened LexerLines
  import opened Identifiers
  import opened LexerMachine
  import opened LexerSpec

  class TypeScriptLexer {
    const text: Text
    const o: Setting
    var tokens: seq<Token>
    ghost var passed: seq<Stretch>
    ghost var runs: seq<Run>

    constructor (text: Text, o: Setting)
      requires Sensible(o)
      ensures this.text == text && this.o == o && tokens == [] && passed == [] && runs == []
    {
      this.text, this.o, tokens, passed, runs := text, o, [], [], [];
    }

    /** The scanner stands at `index` on `line`, and no evaluation has raised. */
    ghost predicate Stands(index: nat, line: int)
      reads this
    {
      At(o, text, passed, tokens, index, line) && RunsOk(o, text, runs, false)
    }

    /** The run of the text meets this scanner: the stack holds what its callers keep. */
    ghost predicate Here(index: nat, line: int, stack: Stack)
      reads this
    {
      Meets(o, text, Now(index, line, tokens, passed, stack))
    }

    /** Scanning a whole text terminates. It raises exactly when evaluating the tokens of some
        interpolation does; otherwise it yields nested, in-range tokens in source order, each
        saying what its span spells, each on its line, and leaves nothing uncovered but white
        space, comments, regexes, JSX and an unclosed template. */
    method Scan() returns (r: seq<Token>, raised: bool)
      requires Sensible(o) && tokens == [] && passed == [] && runs == []
      modifies this
      ensures forall i :: 0 <= i < |runs| ==> RunOk(o, text, runs[i])
      ensures raised <==> exists i :: 0 <= i < |runs| && !Convertible(o.py, runs[i].tokens)
      ensures raised <==> Fails(o, text)
      ensures !raised ==> r == tokens && Result(o, text, passed, r) && Lexed(o.py, text, r)
      ensures !raised && Tame(text) ==> forall t :: t in r ==> 0 <= t.start <= |text| && t.lineno == 1 + LineFeeds(text, t.start)
    {
      hide RunOk, Convertible, Result, Lexed, Scanned, Tame, At, Meets, Leaving, Yields, Next, ConstantExpressionValue;
      StartsWell(o, text);
      MeetsStart(o, text);
      var next, line, failed, closed, depth := ScanCode(0, 1, false, Empty);
      RaisedIff(o, text, runs, failed);
      if failed { return [], true; }
      LeavesAll(o, text, Now(next, line, tokens, passed, Above(InCode(0, depth, false), Empty)));
      IsResult(o, text, passed, tokens, line);
      YieldsOnce(o, text, passed, tokens, passed, tokens);
      r, raised := tokens, false;
      if Tame(text) { TameResult(o, text, passed, r); }
    }

    /** `_scan_quoted`: the raw body up to the closing quote, or to the end of the text. Every
        line feed counts, and so does an escaped carriage return standing alone. */
    method ScanQuoted(index: nat, lineno: int) returns (raw: Text, next: nat, line: int)
      requires index < |text| && (text[index] == QUOTE || text[index] == DQUOTE) && Stands(index, lineno)
      modifies this`passed
      ensures next == QuoteEnd(text, index) && passed == old(passed) + [Quote(index, next)] && Stands(next, line)
      ensures raw == text[index + 1..RawEnd(text, index + 1, Quoted(text[index]))]
      ensures line == lineno + LineFeeds(text, next) - LineFeeds(text, index) + LoneReturns(text, index + 1, next)
    {
      hide At, RunsOk, InQuote, QuoteEnd, RawEnd, StretchOk, LineFeeds, LoneReturns, Meets, Next, Convertible, ConstantExpressionValue;
      var quote := text[index];
      var i := index + 1;
      raw := [];
      line := lineno;
      QuoteStarts(text, index);
      while i < |text|
        invariant index < i <= |text| && InQuote(text, index, i, raw, line - lineno)
        invariant passed == old(passed) && Stands(index, lineno)
      {
        var current := text[i];
        if current == BACKSLASH && i + 1 < |text| {
          QuotePair(text, index, i, raw, line - lineno);
          raw := raw + [current, text[i + 1]];
          if text[i + 1] == LF {
            line := line + 1;
          } else if text[i + 1] == CR {
            if i + 2 < |text| && text[i + 2] == LF {
              QuotePlain(text, index, i + 2, raw, line - lineno);
              raw := raw + [LF];
              i := i + 1;
            }
            line := line + 1;
          }
          i := i + 2;
          continue;
        }
        if current == quote { break; }
        QuotePlain(text, index, i, raw, line - lineno);
        if current == LF { line := line + 1; }
        raw := raw + [current];
        i := i + 1;
      }
      QuoteCloses(o, text, index, i, raw, line - lineno);
      next := if i < |text| then i + 1 else i;
      StepStretch(o, text, passed, tokens, index, lineno, Quote(index, next));
      passed := passed + [Quote(index, next)];
    }

    /** `_scan_regex`. It counts no line, so the line feeds in the regex are lost. */
    method ScanRegex(index: nat, lineno: int, ghost stack: Stack) returns (next: nat, line: int)
      requires Sensible(o) && index < |text| && text[index] == SLASH && Stands(index, lineno)
      requires var s := Now(index, lineno, tokens, passed, stack);
               Meets(o, text, s) && Codes(text, s) && PastLiterals(o, text, s) && o.expressionCanStart(tokens, stack.top.first)
      modifies this`passed
      ensures next == RegexEnd(o, text, index + 1, false) && line == lineno
      ensures passed == old(passed) + [Regex(index, next)] && Stands(next, line) && Here(next, line, stack)
      ensures Scanned(o, text, old(passed), passed, tokens, tokens, index, next)
    {
      hide At, RunsOk, Scanned, Meets, PastLiterals, Next, Convertible, ConstantExpressionValue, RunOk, Good, Evaluates, Explained,
           HolesOk, LineOk, StretchesOk, LineAt, Grows, Extends, Reaches, CodeStep, Leave, After, Leaving;
      StepRegex(o, text, Now(index, lineno, tokens, passed, stack));
      var i := index + 1;
      var inCharacterClass := false;
      while i < |text|
        invariant index < i <= |text|
        invariant RegexEnd(o, text, i, inCharacterClass) == RegexEnd(o, text, index + 1, false)
      {
        var current := text[i];
        if current == BACKSLASH && i + 1 < |text| {
          i := i + 2;
          continue;
        }
        if current == LF { break; }
        if current == LBRACKET {
          inCharacterClass := true;
        } else if current == RBRACKET {
          inCharacterClass := false;
        } else if current == SLASH && !inCharacterClass {
          i := i + 1;
          while i < |text| && o.alpha(text[i])
            invariant index < i <= |text|
            invariant FlagsEnd(o, text, i) == RegexEnd(o, text, index + 1, false)
          {
            i := i + 1;
          }
          break;
        }
        i := i + 1;
      }
      assert i == RegexEnd(o, text, index + 1, false);
      assert StretchOk(o, text, Regex(index, i));
      StepStretch(o, text, passed, tokens, index, lineno, Regex(index, i));
      PassRegex(o, text, passed, tokens, index, i);
      passed := passed + [Regex(index, i)];
      return i, lineno;
    }

    /** `_scan_template`. */
    method ScanTemplate(index: nat, lineno: int, ghost stack: Stack) returns (next: nat, line: int, raised: bool)
      requires Sensible(o) && index < |text| && text[index] == BACKTICK && Stands(index, lineno)
      requires Here(index + 1, lineno, Above(InTemplate(index, lineno, |tokens|, [], [], false, true), stack))
      modifies this
      ensures RunsOk(o, text, runs, raised) && (raised ==> Fails(o, text))
      ensures !raised ==> index < next <= |text| && Stands(next, line) && Here(next, line, stack)
      ensures !raised ==> Scanned(o, text, old(passed), passed, old(tokens), tokens, index, next)
      ensures !raised ==> Level(tokens[|old(tokens)|..], 0, next < |text|)
      decreases |text| - index, 2
    {
      hide At, RunsOk, PieceSoFar, Cook, Moved, Covers, Assembled, ConstantExpressionValue, JavascriptString, TemplateSoFar, Unterminated,
           NeverBelow, Braces, RawEnd, Scanned, Piece, Sensible, Convertible, Meets, Next, RunOk, Good, Evaluates, Explained, HolesOk,
           LineOk, StretchesOk, LineAt, Grows, Extends, Reaches, CodeStep, Leave, After, Leaving, LineFeeds, HolesText;
      var start := index;
      var startLine := lineno;
      var templateTokenStart := |tokens|;
      StepChar(o, text, passed, tokens, index, lineno);
      var i := index + 1;
      line, raised := lineno, false;
      var raw: Text := [];
      var cooked: Text := [];
      var interpolated := false;
      var constant := true;
      ghost var opener: nat := index;   // where the current literal piece was opened
      ghost var holes: seq<Hole> := [];
      ghost var cutOff := false;        // an interpolation ran to the end of the text
      MovedNothing(o, text, passed, tokens, index + 1, i);
      LevelNothing(tokens, true);
      TemplateStart(o, text, start);
      assert tokens[templateTokenStart..] == [];
      while i < |text|
        invariant start < i <= |text| && start <= opener < i && opener < |text|
        invariant Stands(i, line)
        invariant Here(i, line, Above(InTemplate(start, startLine, templateTokenStart, raw, cooked, interpolated, constant), stack))
        invariant |tokens| >= templateTokenStart == |old(tokens)|
        invariant Moved(o, text, old(passed), passed, old(tokens), tokens, start + 1, i)
        invariant Level(tokens[templateTokenStart..], 0, !cutOff)
        invariant !interpolated <==> holes == []
        invariant !interpolated ==> tokens == old(tokens) && opener == start
        invariant cutOff ==> i == |text| && Unterminated(o, text, start)
        invariant !cutOff ==> PieceSoFar(text, opener, i, raw)
        invariant !cutOff ==> TemplateSoFar(o, text, start, holes, tokens[templateTokenStart..], opener, constant, cooked)
        decreases |text| - i
      {
        var current := text[i];
        ghost var here := Now(i, line, tokens, passed,
                              Above(InTemplate(start, startLine, templateTokenStart, raw, cooked, interpolated, constant), stack));
        if current == BACKTICK {
          StepChar(o, text, passed, tokens, i, line);
          var piece := DecodeJavascriptString(raw);
          ClosedPiece(o, text, start, holes, tokens[templateTokenStart..], opener, i, raw, constant, cooked);
          StepTemplateClose(o, text, here);
          EmitTemplate(templateTokenStart, startLine, start, i, line, interpolated, constant, cooked + piece,
                       old(passed), old(tokens), holes, opener, cooked);
          return i + 1, line, false;
        }
        if current == DOLLAR && i + 1 < |text| && text[i + 1] == LBRACE {
          StepChar(o, text, passed, tokens, i, line);
          StepChar(o, text, passed, tokens, i + 1, line);
          interpolated := true;
          var piece := DecodeJavascriptString(raw);
          ClosedPiece(o, text, start, holes, tokens[templateTokenStart..], opener, i, raw, constant, cooked);
          StepTemplateHole(o, text, here);
          raw := [];
          ghost var dollar, count, closed := i, |tokens|, false;
          i, line, constant, cooked, raised, closed :=
            ScanInterpolation(i, line, constant, cooked + piece, old(passed), old(tokens), start, holes, opener, cooked,
                              InTemplate(start, startLine, templateTokenStart, [], cooked + piece, true, constant), stack);
          if raised { return i, line, true; }
          holes := holes + [Hole(opener, dollar, |tokens| - count)];
          opener := i - 1;
          cutOff := !closed;
          continue;
        }
        i, line, raw := ScanPieceChar(i, line, raw, start + 1, old(passed), old(tokens), opener, here.stack.top, stack);
      }
      StepTemplateEnd(o, text, Now(i, line, tokens, passed,
                                   Above(InTemplate(start, startLine, templateTokenStart, raw, cooked, interpolated, constant), stack)));
      if !cutOff { PieceToTheEnd(o, text, start, holes, tokens[templateTokenStart..], opener, raw, constant, cooked); }
      PassOpenTemplate(o, text, old(passed), passed, old(tokens), tokens, start);
      return i, line, false;
    }

    /** A character of a template's literal piece, or an escaped pair. */
    method ScanPieceChar(i: nat, lineno: int, raw: Text, ghost lo: nat, ghost before: seq<Stretch>, ghost base: seq<Token>,
                         ghost opener: nat, ghost frame: Frame, ghost stack: Stack)
      returns (next: nat, line: int, more: Text)
      requires i < |text| && text[i] != BACKTICK && !OpensHole(text, i) && Stands(i, lineno)
      requires frame.InTemplate? && frame.raw == raw && Here(i, lineno, Above(frame, stack))
      requires PieceSoFar(text, opener, i, raw) && Moved(o, text, before, passed, base, tokens, lo, i)
      ensures i < next <= |text| && Stands(next, line) && Here(next, line, Above(frame.(raw := more), stack))
      ensures PieceSoFar(text, opener, next, more) && Moved(o, text, before, passed, base, tokens, lo, next)
    {
      hide At, RunsOk, PieceSoFar, Moved, Meets;
      ghost var here := Now(i, lineno, tokens, passed, Above(frame, stack));
      if text[i] == BACKSLASH && i + 1 < |text| {
        StepEscape(o, text, passed, tokens, i, lineno);
        StepTemplateEscape(o, text, here);
        PieceEscape(text, opener, i, raw);
        MovedWiden(o, text, before, passed, base, tokens, lo, i, i + 2);
        return i + 2, if text[i + 1] == LF then lineno + 1 else lineno, raw + [text[i], text[i + 1]];
      }
      StepChar(o, text, passed, tokens, i, lineno);
      StepTemplatePlain(o, text, here);
      PiecePlain(text, opener, i, raw);
      MovedWiden(o, text, before, passed, base, tokens, lo, i, i + 1);
      return i + 1, if text[i] == LF then lineno + 1 else lineno, raw + [text[i]];
    }

    /** The closing backtick: a plain string token, or a template token put in front of the
        tokens of its interpolations. */
    method EmitTemplate(templateTokenStart: nat, startLine: int, start: nat, i: nat, ghost line: int, interpolated: bool, constant: bool,
                        cooked: Text, ghost before: seq<Stretch>, ghost base: seq<Token>, ghost holes: seq<Hole>, ghost opener: nat,
                        ghost front: Text)
      requires start < i < |text| && text[start] == BACKTICK && text[i] == BACKTICK && Stands(i + 1, line)
      requires At(o, text, before, base, start, startLine)
      requires opener < i && RawEnd(text, opener + 1, Template) == i && cooked == front + Piece(text, opener)
      requires Moved(o, text, before, passed, base, tokens, start + 1, i) && |base| == templateTokenStart <= |tokens|
      requires TemplateSoFar(o, text, start, holes, tokens[templateTokenStart..], opener, constant, front)
      requires constant ==> Assembled(o.py, text, start, i, cooked)
      requires interpolated <==> holes != []
      requires !interpolated ==> tokens == base
      requires Level(tokens[templateTokenStart..], 0, true)
      modifies this`tokens
      ensures Stands(i + 1, line) && |base| <= |tokens|
      ensures tokens == Inserted(old(tokens), templateTokenStart,
                                 TemplateToken(interpolated, constant, cooked, startLine, start, i + 1))
      ensures Scanned(o, text, before, passed, base, tokens, start, i + 1)
      ensures Level(tokens[templateTokenStart..], 0, true)
    {
      hide At, RunsOk, Covers, Assembled, Explained, Interpolates, TemplateSoFar, Sourced, Piece, Level, RawEnd, Good, LineOk, StretchesOk,
           Unterminated, Meets, Next, Convertible, ConstantExpressionValue;
      ClosedTemplate(o, text, start, holes, tokens[templateTokenStart..], opener, i, constant, front, startLine);
      AtStretches(o, text, passed, tokens, i + 1, line);
      GrowsEarlier(before, passed, start, start + 1);
      ghost var inner := tokens[templateTokenStart..];
      ghost var was := tokens;
      ghost var t0 := TemplateToken(interpolated, constant, cooked, startLine, start, i + 1);
      LineOfStart(o, text, before, base, start, startLine, passed, t0);
      LevelFirst(t0, inner, 0, true);
      var t;
      if !interpolated {
        t := Token(StringToken, cooked, startLine, start, i + 1);
        ExtendsOne(o, text, tokens, t);
        tokens := tokens + [t];
        assert inner == [];
      } else {
        t := Token(if constant then ConstantTemplate else ComputedTemplate, if constant then cooked else [], startLine, start, i + 1);
        ExtendsTemplate(o, text, base, tokens, t, start + 1, i, holes, opener);
        tokens := tokens[..templateTokenStart] + [t] + tokens[templateTokenStart..];
      }
      assert tokens[templateTokenStart..] == [t] + inner;
      assert forall u :: u in tokens ==> u in was || u == t;
      StepToken(o, text, passed, was, i + 1, line, t, tokens);
      PassTemplate(o, text, before, passed, base, tokens, t, start, i + 1);
    }

    /** One `${...}`: scan its code, evaluate the tokens it produced, extend the cooked text. */
    method ScanInterpolation(dollar: nat, lineno: int, constant: bool, cooked: Text, ghost startPassed: seq<Stretch>,
                             ghost base: seq<Token>, ghost start: nat, ghost holes: seq<Hole>, ghost opener: nat, ghost front: Text,
                             ghost frame: Frame, ghost stack: Stack)
      returns (next: nat, line: int, stillConstant: bool, spelled: Text, raised: bool, ghost closed: bool)
      requires frame.InTemplate? && frame.constant == constant && frame.cooked == cooked
      requires Here(dollar + 2, lineno, Above(InCode(|tokens|, 0, true), Above(frame, stack)))
      requires Sensible(o) && start < dollar && dollar + 1 < |text| && Stands(dollar + 2, lineno)
      requires text[start] == BACKTICK && text[dollar] == DOLLAR && text[dollar + 1] == LBRACE
      requires opener < dollar && RawEnd(text, opener + 1, Template) == dollar && cooked == front + Piece(text, opener)
      requires Moved(o, text, startPassed, passed, base, tokens, start + 1, dollar) && |base| <= |tokens|
      requires TemplateSoFar(o, text, start, holes, tokens[|base|..], opener, constant, front)
      requires constant ==> Assembled(o.py, text, start, dollar, cooked)
      requires Level(tokens[|base|..], 0, true)
      modifies this
      ensures RunsOk(o, text, runs, raised) && (raised ==> Fails(o, text))
      ensures !raised ==> dollar + 2 <= next <= |text| && Stands(next, line) && |base| <= |old(tokens)| <= |tokens|
      ensures !raised ==> Here(next, line, Above(frame.(cooked := spelled, constant := stillConstant), stack))
      ensures !raised ==> Moved(o, text, startPassed, passed, base, tokens, start + 1, next)
      ensures !raised ==> Level(tokens[|base|..], 0, closed)
      ensures !raised && !closed ==> next == |text| && Unterminated(o, text, start)
      ensures !raised && closed ==>
                dollar + 2 < next && PieceSoFar(text, next - 1, next, []) &&
                TemplateSoFar(o, text, start, holes + [Hole(opener, dollar, |tokens| - |old(tokens)|)], tokens[|base|..], next - 1,
                              stillConstant, spelled)
      decreases |text| - dollar, 1
    {
      hide At, RunsOk, Assembled, ConstantExpressionValue, JavascriptString, TemplateSoFar, PieceSoFar, Piece, Moved, Scanned, Level,
           HoleRun, OpenRun, Unterminated, RawEnd, Good, Reaches, StretchesOk, HolesOk, Meets, Leaving, Evaluates, Next;
      var expressionTokenStart := |tokens|;
      ghost var before, passedBefore := tokens, passed;
      stillConstant, spelled := constant, cooked;
      ghost var depth;
      next, line, raised, closed, depth := ScanCode(dollar + 2, lineno, true, Above(frame, stack));
      if raised { return; }
      ghost var hi := if closed then next - 1 else next;
      CodeMoves(o, text, startPassed, passedBefore, passed, base, before, tokens, start + 1, dollar, dollar + 2, next, closed);
      InterpolationLeaves(o, text, Now(hi, line, tokens, passed, Above(InCode(expressionTokenStart, depth, true), Above(frame, stack))), next);
      AtStretches(o, text, passed, tokens, next, line);
      var run := tokens[expressionTokenStart..];
      InterpolationIsAssembled(o, text, passedBefore, passed, before, tokens, dollar + 2, hi);
      RunIsKnown(o, text, passedBefore, passed, before, tokens, dollar, next, closed);
      RunsMore(o, text, runs, Run(dollar, hi, run));
      runs := runs + [Run(dollar, hi, run)];
      var expressionValue := ConstantExpressionValue(o.py, run);
      match expressionValue {
        case Raises =>
          raised := true;
          return;
        case Unknown =>
          stillConstant := false;
        case Known(v) =>
          var s := JavascriptString(o.py, v);
          if s.None? {
            raised := true;
            return;
          }
          spelled := cooked + s.value;
      }
      LevelOn(base, before, tokens, 0, 0, closed);
      assert tokens[|base|..] == before[|base|..] + run;
      if closed {
        NextHole(o, text, start, holes, before[|base|..], opener, dollar, next, run, constant, front);
        PieceStart(text, next - 1);
      } else {
        OpenTemplate(o, text, start, holes, before[|base|..], opener, dollar, constant, front, run);
      }
    }

    /** What `_scan_code` does at a character that is no punctuation: white space, comments,
        strings, templates, regexes, JSX and identifiers. */
    method ScanLexeme(index: nat, lineno: int, segmentTokenStart: nat, ghost stack: Stack)
      returns (read: bool, next: nat, line: int, raised: bool)
      requires Sensible(o) && index < |text| && Stands(index, lineno)
      requires Here(index, lineno, stack) && stack.Above? && stack.top.InCode? && stack.top.first == segmentTokenStart
      modifies this
      ensures RunsOk(o, text, runs, raised) && (raised ==> Fails(o, text))
      ensures !raised && read ==> index < next <= |text| && Stands(next, line) && Here(next, line, stack)
      ensures !raised && read ==> Scanned(o, text, old(passed), passed, old(tokens), tokens, index, next)
      ensures !raised && read ==> |old(tokens)| <= |tokens| && Level(tokens[|old(tokens)|..], 0, next < |text|)
      ensures !read ==> !raised && tokens == old(tokens) && passed == old(passed) && Stands(index, lineno) && Here(index, lineno, stack)
      ensures !read ==> PastGuesses(o, text, Now(index, lineno, tokens, passed, stack)) && !StartsIdentifier(o, text, index)
      decreases |text| - index, 3
    {
      hide At, RunsOk, Scanned, Covers, NeverBelow, Braces, Assembled, InPlace, Explained, StartsIdentifier, Names, Marks, Good, Reaches,
           LineOk, StretchesOk, Sourced, Grows, Element, LineComment, BlockComment, RegexEnd, Meets, LineFeeds, LineCommentEnd,
           BlockCommentEnd, QuoteEnd, IdentifierToken, Next, Convertible, ConstantExpressionValue, RunOk, Evaluates, HolesOk, LineAt,
           Extends, CodeStep, Leave, After, TagBody, Fails;
      read, next, line, raised := true, index, lineno, false;
      var c := text[index];
      ghost var here := Now(index, lineno, tokens, passed, stack);
      LevelNothing(tokens, true);
      if o.space(c) {
        StepSpace(o, text, here);
        StepChar(o, text, passed, tokens, index, lineno);
        if c == LF { line := line + 1; }
        next := index + 1;
        CoversSpace(o, text, passed, [], index);
        PassOver(o, text, passed, tokens, index, next);
      } else if c == SLASH && index + 1 < |text| && text[index + 1] == SLASH {
        next := SkipLineComment(index, lineno, stack);
      } else if c == SLASH && index + 1 < |text| && text[index + 1] == STAR {
        next, line := SkipBlockComment(index, lineno, stack);
      } else if c == QUOTE || c == DQUOTE {
        next, line := EmitQuoted(index, lineno, stack);
      } else if c == BACKTICK {
        StepBacktick(o, text, here);
        next, line, raised := ScanTemplate(index, lineno, stack);
        if !raised { ScannedGrows(o, text, old(passed), passed, old(tokens), tokens, index, next); }
      } else if c == SLASH && o.expressionCanStart(tokens, segmentTokenStart) {
        next, line := ScanRegex(index, lineno, stack);
      } else if o.jsx && c == LESS && o.looksLikeJsx(tokens, index, segmentTokenStart) {
        StepElement(o, text, here);
        next, line, raised := ScanJsx(index, lineno, stack);
      } else if StartsIdentifier(o, text, index) {
        next := EmitIdentifier(index, lineno, stack);
      } else {
        read := false;
      }
    }

    /** `_scan_code`, up to the closing brace when asked to stop there (`closed`). */
    method ScanCode(index: nat, lineno: int, stopOnClosingBrace: bool, ghost stack: Stack)
      returns (next: nat, line: int, raised: bool, ghost closed: bool, ghost depth: nat)
      requires Sensible(o) && index <= |text| && Stands(index, lineno)
      requires Here(index, lineno, Above(InCode(|tokens|, 0, stopOnClosingBrace), stack))
      modifies this
      ensures RunsOk(o, text, runs, raised) && (raised ==> Fails(o, text))
      ensures !raised ==> index <= next <= |text| && Stands(next, line)
      ensures !raised && closed ==> stopOnClosingBrace && next > index && text[next - 1] == RBRACE
      ensures !raised && !closed ==> next == |text|
      ensures !raised ==>
                Leaving(o, text, Now(if closed then next - 1 else next, line, tokens, passed,
                                     Above(InCode(|old(tokens)|, depth, stopOnClosingBrace), stack)), next)
      ensures !raised ==> Scanned(o, text, old(passed), passed, old(tokens), tokens, index, if closed then next - 1 else next)
      ensures !raised && stopOnClosingBrace ==> Level(tokens[|old(tokens)|..], 0, closed)
      decreases |text| - index, 4
    {
      hide At, RunsOk, Scanned, Covers, NeverBelow, Braces, Assembled, InPlace, Explained, StartsIdentifier, Names, Marks, Good, Reaches,
           LineOk, StretchesOk, Sourced, Grows, Sensible, Element, LineComment, BlockComment, RegexEnd, Meets, LineFeeds, LineCommentEnd,
           BlockCommentEnd, QuoteEnd, IdentifierToken, Next, Convertible, ConstantExpressionValue, RunOk, Evaluates, HolesOk, LineAt,
           Extends, CodeStep, Leave, After, TagBody, Fails;
      var braceDepth := 0;
      var segmentTokenStart := |tokens|;
      var i := index;
      line, raised, closed, depth := lineno, false, false, 0;
      ScannedNothing(o, text, passed, tokens, i);
      LevelNothing(tokens, true);
      while i < |text|
        invariant index <= i <= |text| && Stands(i, line) && !closed && braceDepth >= 0
        invariant Here(i, line, Above(InCode(segmentTokenStart, braceDepth, stopOnClosingBrace), stack))
        invariant |old(tokens)| <= |tokens|
        invariant Scanned(o, text, old(passed), passed, old(tokens), tokens, index, i)
        invariant stopOnClosingBrace ==> Level(tokens[|old(tokens)|..], braceDepth, i < |text|)
        decreases |text| - i
      {
        var c := text[i];
        var from := i;
        ghost var before, was := tokens, passed;
        ghost var callers := Above(InCode(segmentTokenStart, braceDepth, stopOnClosingBrace), stack);
        var read, n, l, failed := ScanLexeme(i, line, segmentTokenStart, callers);
        if failed { return i, line, true, false, 0; }
        if read {
          i, line := n, l;
          ScanOn(o, text, old(passed), was, passed, old(tokens), before, tokens, index, from, i);
          if stopOnClosingBrace { LevelOn(old(tokens), before, tokens, braceDepth, 0, i < |text|); }
          continue;
        }
        if c == LBRACE && stopOnClosingBrace {
          braceDepth := braceDepth + 1;
        } else if c == RBRACE && stopOnClosingBrace {
          if braceDepth == 0 {
            closed := true;
            StepChar(o, text, passed, tokens, i, line);
            return i + 1, line, false, closed, 0;
          }
          braceDepth := braceDepth - 1;
        }
        EmitPunctuation(i, line, segmentTokenStart, callers);
        i := i + 1;
        ScanOn(o, text, old(passed), was, passed, old(tokens), before, tokens, index, from, i);
        if stopOnClosingBrace { LevelMore(old(tokens), before, tokens[|before|], callers.top.depth, i < |text|); }
      }
      return i, line, false, closed, braceDepth;
    }

    /** A quoted string. */
    method EmitQuoted(index: nat, lineno: int, ghost stack: Stack) returns (next: nat, line: int)
      requires index < |text| && (text[index] == QUOTE || text[index] == DQUOTE) && Stands(index, lineno)
      requires Here(index, lineno, stack) && stack.Above? && stack.top.InCode? && !o.space(text[index])
      modifies this`tokens, this`passed
      ensures index < next <= |text| && Stands(next, line) && Here(next, line, stack) && |old(tokens)| <= |tokens|
      ensures Scanned(o, text, old(passed), passed, old(tokens), tokens, index, next)
      ensures Level(tokens[|old(tokens)|..], 0, true)
    {
      hide At, RunsOk, Scanned, Explained, Sourced, LineAt, DriftBefore, Meets, LineFeeds, LoneReturns, RawEnd, Cook, Next, Convertible,
           ConstantExpressionValue;
      StepQuoted(o, text, Now(index, lineno, tokens, passed, stack));
      var raw;
      raw, next, line := ScanQuoted(index, lineno);
      var value := DecodeJavascriptString(raw);
      var t := Token(StringToken, value, lineno, index, next);
      QuotedIsSourced(o, text, index, raw, t);
      EmitStep(o, text, old(passed), passed, tokens, t, index, lineno, next, line);
      LevelNothing(tokens, true);
      LevelMore(tokens, tokens, t, 0, true);
      tokens := tokens + [t];
    }

    /** A longest identifier. */
    method EmitIdentifier(index: nat, lineno: int, ghost stack: Stack) returns (next: nat)
      requires Sensible(o) && index < |text| && Stands(index, lineno) && StartsIdentifier(o, text, index) && !OpensLiteral(text[index])
      requires var s := Now(index, lineno, tokens, passed, stack); Meets(o, text, s) && Codes(text, s) && PastGuesses(o, text, s)
      modifies this`tokens
      ensures index < next <= |text| && Stands(next, lineno) && Here(next, lineno, stack) && |old(tokens)| <= |tokens|
      ensures Scanned(o, text, passed, passed, old(tokens), tokens, index, next)
      ensures Level(tokens[|old(tokens)|..], 0, true)
    {
      hide At, RunsOk, Scanned, Explained, Sourced, StartsIdentifier, ContinuesIdentifier, Meets, PastGuesses, IdentifierUnit, Next,
           Convertible, ConstantExpressionValue;
      StepIdentifier(o, text, Now(index, lineno, tokens, passed, stack));
      var value;
      value, next := ScanIdentifier(index, lineno);
      SpelledIs(o, text, index, next, value);
      var t := Token(Identifier, value, lineno, index, next);
      IdentifierIsExplained(o, text, t);
      GrowsNot(passed, index);
      EmitStep(o, text, passed, passed, tokens, t, index, lineno, next, lineno);
      LevelNothing(tokens, true);
      LevelMore(tokens, tokens, t, 0, true);
      tokens := tokens + [t];
    }

    /** Any other character. */
    method EmitPunctuation(index: nat, lineno: int, segmentTokenStart: nat, ghost stack: Stack)
      requires Sensible(o) && index < |text| && Stands(index, lineno) && !StartsIdentifier(o, text, index)
      requires var s := Now(index, lineno, tokens, passed, stack);
               Meets(o, text, s) && Codes(text, s) && PastGuesses(o, text, s) && !ClosesCode(text, s)
      modifies this`tokens
      ensures Stands(index + 1, lineno) && |old(tokens)| < |tokens|
      ensures Here(index + 1, lineno, Above(stack.top.(depth := DepthAfter(stack.top, text[index])), stack.rest))
      ensures Scanned(o, text, passed, passed, old(tokens), tokens, index, index + 1)
      ensures tokens == old(tokens) + [Token(Punctuation, [text[index]], lineno, index, index + 1)]
    {
      hide At, RunsOk, Scanned, Explained, Sourced, StartsIdentifier, Meets, Next, Convertible, ConstantExpressionValue;
      StepMark(o, text, Now(index, lineno, tokens, passed, stack));
      SlashIsDecided(o, text, Now(index, lineno, tokens, passed, stack));
      var t := Token(Punctuation, [text[index]], lineno, index, index + 1);
      PunctuationIsExplained(o, text, t);
      StepChar(o, text, passed, tokens, index, lineno);
      GrowsNot(passed, index);
      EmitStep(o, text, passed, passed, tokens, t, index, lineno, index + 1, lineno);
      tokens := tokens + [t];
    }

    method ScanIdentifier(index: nat, lineno: int) returns (value: Text, next: nat)
      requires Sensible(o) && index < |text| && Stands(index, lineno) && StartsIdentifier(o, text, index)
      ensures index < next <= |text| && Stands(next, lineno)
      ensures SpellsIdentifier(o, text, index, next, value)
      ensures next < |text| ==> !ContinuesIdentifier(o, text, next)
    {
      hide At, RunsOk, DecodeIdentifierEscape, Meets, Next, Convertible, ConstantExpressionValue;
      EscapeNeedsBackslash(text, index);
      IdentifierFirst(o, text, index);
      var escapedStart := DecodeIdentifierEscape(text, index);
      if escapedStart.Some? {
        value, next := [escapedStart.value.0], escapedStart.value.1;
      } else {
        value, next := [text[index]], index + 1;
      }
      while next < |text|
        invariant index < next <= |text|
        invariant forall k :: index <= k < next ==> text[k] != LF
        invariant SpellsIdentifier(o, text, index, next, value)
      {
        var current := text[next];
        EscapeNeedsBackslash(text, next);
        if ContinuesIdentifier(o, text, next) { IdentifierStep(o, text, index, next, value); }
        if IdentifierPart(o, current) {
          value := value + [current];
          next := next + 1;
          continue;
        }
        var escapedPart := DecodeIdentifierEscape(text, next);
        if escapedPart.Some? && IdentifierPart(o, escapedPart.value.0) {
          value := value + [escapedPart.value.0];
          next := escapedPart.value.1;
          continue;
        }
        break;
      }
      StepPlain(o, text, passed, tokens, index, next, lineno);
    }

    /** A line comment, up to the line feed that ends it or the end of the text. */
    method SkipLineComment(index: nat, lineno: int, ghost stack: Stack) returns (next: nat)
      requires index + 1 < |text| && text[index] == SLASH && text[index + 1] == SLASH && Stands(index, lineno)
      requires Here(index, lineno, stack) && stack.Above? && stack.top.InCode? && !o.space(text[index])
      ensures index < next <= |text| && LineComment(text, index, next) && Stands(next, lineno) && Here(next, lineno, stack)
      ensures Scanned(o, text, passed, passed, tokens, tokens, index, next)
    {
      hide Covers, At, RunsOk, Scanned, Meets, Next, Convertible, ConstantExpressionValue;
      StepLineComment(o, text, Now(index, lineno, tokens, passed, stack));
      next := index + 2;
      while next < |text| && text[next] != LF
        invariant index + 2 <= next <= |text|
        invariant forall k :: index <= k < next ==> text[k] != LF
        invariant LineCommentEnd(text, next) == LineCommentEnd(text, index + 2)
      {
        next := next + 1;
      }
      StepPlain(o, text, passed, tokens, index, next, lineno);
      assert LineComment(text, index, next);
      CoversSkipped(o, text, passed, [], index, next);
      PassOver(o, text, passed, tokens, index, next);
    }

    /** A block comment, past the first comment end or to the end of the text. */
    method SkipBlockComment(index: nat, lineno: int, ghost stack: Stack) returns (next: nat, line: int)
      requires index + 1 < |text| && text[index] == SLASH && text[index + 1] == STAR && Stands(index, lineno)
      requires Here(index, lineno, stack) && stack.Above? && stack.top.InCode? && !o.space(text[index])
      ensures index < next <= |text| && BlockComment(text, index, next) && Stands(next, line) && Here(next, line, stack)
      ensures Scanned(o, text, passed, passed, tokens, tokens, index, next)
    {
      hide At, Covers, RunsOk, Scanned, Meets, Next, Convertible, ConstantExpressionValue, RunOk, Good, Evaluates, Explained, HolesOk,
           LineOk, StretchesOk, LineAt, Grows, Extends, Reaches, CodeStep, Leave, After, Leaving;
      StepBlockComment(o, text, Now(index, lineno, tokens, passed, stack));
      next, line := index + 2, lineno;
      StepChar(o, text, passed, tokens, index, lineno);
      StepChar(o, text, passed, tokens, index + 1, lineno);
      while next < |text|
        invariant index + 2 <= next <= |text| && Stands(next, line)
        invariant forall k :: index + 2 <= k < next ==> !StarSlash(text, k)
        invariant BlockCommentEnd(text, next) == BlockCommentEnd(text, index + 2)
        invariant line == lineno + LineFeeds(text, next) - LineFeeds(text, index)
      {
        StepChar(o, text, passed, tokens, next, line);
        if text[next] == LF { line := line + 1; }
        assert LineFeeds(text, next + 1) == LineFeeds(text, next) + Feed(text[next]);
        if next + 1 < |text| && text[next] == STAR && text[next + 1] == SLASH {
          StepChar(o, text, passed, tokens, next + 1, line);
          assert LineFeeds(text, next + 2) == LineFeeds(text, next + 1);
          assert BlockCommentEnd(text, next) == next + 2;
          next := next + 2;
          break;
        }
        next := next + 1;
      }
      assert next == BlockCommentEnd(text, index + 2) && line == lineno + LineFeeds(text, next) - LineFeeds(text, index);
      assert BlockComment(text, index, next);
      CoversSkipped(o, text, passed, [], index, next);
      PassOver(o, text, passed, tokens, index, next);
    }

    /** An expression in braces, inside a JSX element or tag. */
    method ScanBraced(index: nat, lineno: int, ghost lo: nat, ghost firstPassed: seq<Stretch>, ghost firstTokens: seq<Token>,
                      ghost stack: Stack)
      returns (next: nat, line: int, raised: bool)
      requires Sensible(o) && lo <= index < |text| && text[index] == LBRACE && Stands(index, lineno)
      requires Here(index + 1, lineno, Above(InCode(|tokens|, 0, true), stack))
      requires !(stack.Above? && stack.top.InTemplate?)
      requires Moved(o, text, firstPassed, passed, firstTokens, tokens, lo, index)
      requires |firstTokens| <= |tokens| && Level(tokens[|firstTokens|..], 0, true)
      modifies this
      ensures RunsOk(o, text, runs, raised) && (raised ==> Fails(o, text))
      ensures !raised ==> index < next <= |text| && Stands(next, line) && Here(next, line, stack)
      ensures !raised && next < |text| ==> text[next - 1] == RBRACE
      ensures !raised ==> Moved(o, text, firstPassed, passed, firstTokens, tokens, lo, next)
      ensures !raised ==> |firstTokens| <= |tokens| && Level(tokens[|firstTokens|..], 0, next < |text|)
      decreases |text| - index, 0
    {
      hide At, RunsOk, Moved, Scanned, NeverBelow, Braces, Meets, Leaving, Sensible, Next, Convertible, ConstantExpressionValue;
      ghost var before, was := tokens, passed;
      StepChar(o, text, passed, tokens, index, lineno);
      ghost var closed, depth;
      next, line, raised, closed, depth := ScanCode(index + 1, lineno, true, stack);
      if raised { return; }
      StepBack(o, text, Now(if closed then next - 1 else next, line, tokens, passed, Above(InCode(|before|, depth, true), stack)), next);
      CodeMoves(o, text, firstPassed, was, passed, firstTokens, before, tokens, lo, index, index + 1, next, closed);
      LevelOn(firstTokens, before, tokens, 0, 0, closed);
    }

    /** A quoted attribute of a tag. */
    method SkipAttribute(index: nat, lineno: int, ghost lo: nat, ghost firstPassed: seq<Stretch>, ghost firstTokens: seq<Token>,
                         ghost closing: bool, ghost last: int, ghost stack: Stack)
      returns (next: nat, line: int)
      requires lo <= index < |text| && (text[index] == QUOTE || text[index] == DQUOTE) && Stands(index, lineno)
      requires Here(index, lineno, Above(InTag(closing, last), stack))
      requires Moved(o, text, firstPassed, passed, firstTokens, tokens, lo, index)
      modifies this`passed
      ensures index < next <= |text| && Stands(next, line) && Here(next, line, Above(InTag(closing, -1), stack))
      ensures next < |text| ==> text[next - 1] == text[index]
      ensures Moved(o, text, firstPassed, passed, firstTokens, tokens, lo, next)
    {
      hide At, RunsOk, Moved, Scanned, Meets, Next, Convertible, ConstantExpressionValue, QuoteEnd, LineFeeds, LoneReturns;
      ghost var was := passed;
      StepTagQuote(o, text, Now(index, lineno, tokens, passed, Above(InTag(closing, last), stack)));
      var _, c, l := ScanQuoted(index, lineno);
      next, line := c, l;
      QuoteEndsInQuote(text, index);
      MovedPast(o, text, firstPassed, was, passed, firstTokens, tokens, lo, index, next);
    }

    /** `_scan_jsx_tag`: a tag is closing when a slash follows its `<`, and self-closing when a
        slash is the last thing before its `>`. */
    method ScanJsxTag(index: nat, lineno: int, ghost stack: Stack)
      returns (next: nat, line: int, closing: bool, selfClosing: bool, raised: bool)
      requires Sensible(o) && index < |text| && text[index] == LESS && Stands(index, lineno)
      requires Here(TagBody(text, index), lineno, Above(InTag(ClosesTag(text, index), 0), stack))
      modifies this
      ensures RunsOk(o, text, runs, raised) && (raised ==> Fails(o, text))
      ensures !raised ==> Meets(o, text, TagEnds(Now(next, line, tokens, passed, stack), next, stack, closing, selfClosing))
      ensures !raised ==> index < next <= |text| && Stands(next, line) && |old(tokens)| <= |tokens|
      ensures !raised ==> Moved(o, text, old(passed), passed, old(tokens), tokens, index, next)
      ensures !raised ==> Level(tokens[|old(tokens)|..], 0, next < |text|)
      ensures !raised ==> TagOk(o, text, Tag(index, next, closing, selfClosing))
      decreases |text| - index, 1
    {
      hide At, RunsOk, Moved, Scanned, NeverBelow, Braces, SlashLast, QuoteEnd, LineOk, StretchesOk, Assembled, InPlace, Explained,
           StretchOk, Grows, Extends, Covers, Good, Sourced, Meets, Leaving, TagEnds, Next, Convertible, ConstantExpressionValue, RunOk,
           Evaluates, HolesOk, LineAt, Reaches, CodeStep, Leave, After, LineFeeds;
      closing := index + 1 < |text| && text[index + 1] == SLASH;
      raised, selfClosing := false, false;
      var cursor := index + if closing then 2 else 1;
      StepPlain(o, text, passed, tokens, index, cursor, lineno);
      line := lineno;
      var last := 0;   // the last non-space character; -1 after a string, -2 after an expression
      NoSlashYet(o, text, index, closing);
      MovedNothing(o, text, passed, tokens, index, cursor);
      LevelNothing(tokens, true);
      while cursor < |text|
        invariant index < cursor <= |text| && Stands(cursor, line) && |old(tokens)| <= |tokens|
        invariant index + (if closing then 2 else 1) <= cursor
        invariant Moved(o, text, old(passed), passed, old(tokens), tokens, index, cursor)
        invariant Level(tokens[|old(tokens)|..], 0, cursor < |text|)
        invariant Here(cursor, line, Above(InTag(closing, last), stack))
        invariant last == SLASH ==> SlashLast(o, text, index, closing, cursor)
        invariant cursor < |text| && SlashLast(o, text, index, closing, cursor) ==> last == SLASH
        decreases |text| - cursor
      {
        var current := text[cursor];
        ghost var here := Now(cursor, line, tokens, passed, Above(InTag(closing, last), stack));
        if current == QUOTE || current == DQUOTE {
          cursor, line := SkipAttribute(cursor, line, index, old(passed), old(tokens), closing, last, stack);
          if cursor < |text| { SlashIsCut(o, text, index, closing, cursor); }
          last := -1;
          continue;
        }
        if current == LBRACE && !closing {
          StepTagBrace(o, text, here);
          cursor, line, raised := ScanBraced(cursor, line, index, old(passed), old(tokens), Above(InTag(closing, -2), stack));
          if raised { return cursor, line, closing, false, true; }
          if cursor < |text| { SlashIsCut(o, text, index, closing, cursor); }
          last := -2;
          continue;
        }
        StepChar(o, text, passed, tokens, cursor, line);
        MovedWiden(o, text, old(passed), passed, old(tokens), tokens, index, cursor, cursor + 1);
        if current == GREATER {
          StepTagCloses(o, text, here);
          EndsThere(here, Now(cursor + 1, line, tokens, passed, stack), cursor + 1, stack, closing, last == SLASH);
          return cursor + 1, line, closing, last == SLASH, false;
        }
        StepTagPlain(o, text, here);
        if current == LF { line := line + 1; }
        SlashStays(o, text, index, closing, cursor);
        if !o.space(current) { last := current; }
        cursor := cursor + 1;
      }
      StepTagEnd(o, text, Now(cursor, line, tokens, passed, Above(InTag(closing, last), stack)));
      EndsThere(Now(cursor, line, tokens, passed, Above(InTag(closing, last), stack)), Now(cursor, line, tokens, passed, stack),
                cursor, stack, closing, false);
      return cursor, line, closing, false, false;
    }

    /** `_scan_jsx`: from a tag to where every element it opened is closed. */
    method ScanJsx(index: nat, lineno: int, ghost stack: Stack) returns (next: nat, line: int, raised: bool)
      requires Sensible(o) && o.jsx && index < |text| && text[index] == LESS && Stands(index, lineno)
      requires Here(TagBody(text, index), lineno, Above(InTag(ClosesTag(text, index), 0), Above(InElement(0, false), stack)))
      modifies this
      ensures RunsOk(o, text, runs, raised) && (raised ==> Fails(o, text))
      ensures !raised ==> index < next <= |text| && Stands(next, line) && Here(next, line, stack) && |old(tokens)| <= |tokens|
      ensures !raised ==> Scanned(o, text, old(passed), passed, old(tokens), tokens, index, next)
      ensures !raised ==> Level(tokens[|old(tokens)|..], 0, next < |text|)
      ensures !raised ==> exists tags :: Element(o, text, index, next, tags)
      decreases |text| - index, 2
    {
      hide At, RunsOk, Moved, Scanned, NeverBelow, Braces, Element, TagOk, Meets, Leaving, StartsTag, Next, Convertible,
           ConstantExpressionValue, RunOk, Good, Evaluates, Explained, HolesOk, LineOk, StretchesOk, LineAt, Grows, Extends, Reaches,
           CodeStep, Leave, After;
      var i, closing, selfClosing;
      i, line, closing, selfClosing, raised := ScanJsxTag(index, lineno, Above(InElement(0, false), stack));
      if raised { return i, line, true; }
      ghost var tags := [Tag(index, i, closing, selfClosing)];
      ElementStarts(o, text, tags[0]);
      if !(closing || selfClosing) {
        var depth := 1;
        while i < |text| && depth != 0
          invariant index < i <= |text| && Stands(i, line) && |old(tokens)| <= |tokens|
          invariant Moved(o, text, old(passed), passed, old(tokens), tokens, index, i)
          invariant Level(tokens[|old(tokens)|..], 0, i < |text|)
          invariant Here(i, line, Above(InElement(depth, true), stack))
          invariant depth >= 0 && ElementSoFar(o, text, index, i, tags, depth)
          decreases |text| - i
        {
          var current := text[i];
          ghost var from, before, was := i, tokens, passed;
          ghost var element := Above(InElement(depth, true), stack);
          ghost var here := Now(i, line, tokens, passed, element);
          if current == LBRACE {
            StepElementBrace(o, text, here);
            i, line, raised := ScanBraced(i, line, index, old(passed), old(tokens), element);
            if raised { return i, line, true; }
            continue;
          }
          if StartsTag(o, text, i) {
            StepElementTag(o, text, here);
            TagStartsLess(o, text, i);
            i, line, closing, selfClosing, raised := ScanJsxTag(i, line, element);
            if raised { return i, line, true; }
            MovedOn(o, text, old(passed), was, passed, old(tokens), before, tokens, index, from, from, i, i);
            LevelOn(old(tokens), before, tokens, 0, 0, i < |text|);
            ElementGoesOn(o, text, index, from, tags, depth, Tag(from, i, closing, selfClosing));
            tags := tags + [Tag(from, i, closing, selfClosing)];
            if closing {
              depth := depth - 1;
            } else if !selfClosing {
              depth := depth + 1;
            }
            continue;
          }
          StepChar(o, text, passed, tokens, i, line);
          StepElementPlain(o, text, here);
          if current == LF { line := line + 1; }
          i := i + 1;
          MovedWiden(o, text, old(passed), passed, old(tokens), tokens, index, from, i);
        }
        StepElementEnd(o, text, Now(i, line, tokens, passed, Above(InElement(depth, true), stack)));
        ElementEnds(o, text, index, i, tags, depth);
      }
      PassJsx(o, text, old(passed), passed, old(tokens), tokens, index, i);
      return i, line, false;
    }
  }
}
