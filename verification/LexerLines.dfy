/** How the TypeScript lexer (scripts/frontend_imports.py) counts lines. What the scanner is
    not free to choose is a `Setting`: the guesses "may a regex start here" and "does this look
    like JSX", the Unicode character classes and the Python runtime are arbitrary, so what is
    proved holds for every choice. */
module LexerLines {
  import opened Text
  import opened JsStrings
  import opened Prefilter
  import opened Tokens
  import opened ConstEval

  datatype Setting = Setting(
    jsx: bool,
    alpha: int -> bool,
    alnum: int -> bool,
    space: int -> bool,
    expressionCanStart: (seq<Token>, nat) -> bool,
    looksLikeJsx: (seq<Token>, nat, nat) -> bool,
    py: Python)

  /** A line feed is white space and is in no identifier; nor is a backslash. Quotes,
      braces and slashes are no white space. */
  predicate Sensible(o: Setting) {
    && o.space(LF) && !o.alpha(LF) && !o.alnum(LF) && !o.alpha(BACKSLASH) && !o.alnum(BACKSLASH)
    && !o.space(QUOTE) && !o.space(DQUOTE) && !o.space(RBRACE) && !o.space(SLASH)
  }

  // ------------------------------------------------------------------ lines

  /** A stretch passed over whose lines are not counted feed by feed: a regex, whose escaped
      line feeds are skipped, or a quoted string, whose escaped lone carriage returns count. */
  datatype Stretch = Regex(lo: nat, hi: nat) | Quote(lo: nat, hi: nat)

  function FlagsEnd(o: Setting, text: Text, i: nat): (r: nat)
    requires i <= |text|
    ensures i <= r <= |text|
    decreases |text| - i
  {
    if i < |text| && o.alpha(text[i]) then FlagsEnd(o, text, i + 1) else i
  }

  /** Where a regex body ends that is read from `i` on: after its flags, at a bare line feed,
      or at the end of the text. */
  function RegexEnd(o: Setting, text: Text, i: nat, inClass: bool): (r: nat)
    requires i <= |text|
    ensures i <= r <= |text|
    decreases |text| - i
  {
    if i == |text| then i
    else if text[i] == BACKSLASH && i + 1 < |text| then RegexEnd(o, text, i + 2, inClass)
    else if text[i] == LF then i
    else if text[i] == SLASH && !inClass then FlagsEnd(o, text, i + 1)
    else RegexEnd(o, text, i + 1, text[i] == LBRACKET || (inClass && text[i] != RBRACKET))
  }

  /** Every line feed inside a regex is escaped. */
  lemma {:induction false} RegexFeedsAreEscaped(o: Setting, text: Text, i: nat, inClass: bool, k: nat)
    requires Sensible(o) && i <= |text| && i <= k < RegexEnd(o, text, i, inClass) && text[k] == LF
    ensures k > i && text[k - 1] == BACKSLASH
    decreases |text| - i
  {
    if text[i] == BACKSLASH && i + 1 < |text| {
      if k > i + 1 { RegexFeedsAreEscaped(o, text, i + 2, inClass, k); }
    } else if text[i] == SLASH && !inClass {
      FlagsHaveNoFeed(o, text, i + 1, k);
    } else if k > i {
      RegexFeedsAreEscaped(o, text, i + 1, text[i] == LBRACKET || (inClass && text[i] != RBRACKET), k);
    }
  }

  lemma {:induction false} FlagsHaveNoFeed(o: Setting, text: Text, i: nat, k: nat)
    requires Sensible(o) && i <= |text|
    ensures i <= k < FlagsEnd(o, text, i) ==> text[k] != LF
    decreases |text| - i
  {
    if i < |text| && o.alpha(text[i]) { FlagsHaveNoFeed(o, text, i + 1, k); }
  }

  predicate LoneReturn(text: Text, i: nat)
    requires i + 1 < |text|
  {
    text[i] == BACKSLASH && text[i + 1] == CR && !(i + 2 < |text| && text[i + 2] == LF)
  }

  /** The escaped lone carriage returns of a quoted body between `i` and `hi`. */
  function LoneReturns(text: Text, i: nat, hi: nat): nat
    requires hi <= |text|
    decreases hi - i
  {
    if i >= hi then 0
    else if text[i] == BACKSLASH && i + 1 < |text| then
      (if LoneReturn(text, i) then 1 else 0) + LoneReturns(text, i + 2, hi)
    else LoneReturns(text, i + 1, hi)
  }

  function QuoteEnd(text: Text, lo: nat): (r: nat)
    requires lo < |text|
    ensures lo < r <= |text|
  {
    var e := RawEnd(text, lo + 1, Quoted(text[lo])); if e < |text| then e + 1 else e
  }

  /** How many lines the scan of a quoted body counts from `i` on. */
  function QuoteLines(text: Text, i: nat, hi: nat): int
    requires i <= hi <= |text|
  {
    LineFeeds(text, hi) - LineFeeds(text, i) + LoneReturns(text, i, hi)
  }

  lemma {:induction false} RawEndsThere(text: Text, i: nat, kind: Kind)
    requires i <= |text|
    ensures RawEnd(text, i, kind) < |text| ==> AtDelimiter(text, RawEnd(text, i, kind), kind)
    decreases |text| - i
  {
    if i < |text| {
      if text[i] == BACKSLASH && i + 1 < |text| {
        RawEndsThere(text, i + 2, kind);
      } else if !AtDelimiter(text, i, kind) {
        RawEndsThere(text, i + 1, kind);
      }
    }
  }

  lemma QuoteEndsInQuote(text: Text, lo: nat)
    requires lo < |text| && (text[lo] == QUOTE || text[lo] == DQUOTE)
    ensures QuoteEnd(text, lo) < |text| ==> text[QuoteEnd(text, lo) - 1] == text[lo]
  {
    RawEndsThere(text, lo + 1, Quoted(text[lo]));
  }

  predicate StretchOk(o: Setting, text: Text, s: Stretch) {
    && s.lo < s.hi <= |text|
    && match s
       case Regex(lo, hi) => text[lo] == SLASH && hi == RegexEnd(o, text, lo + 1, false)
       case Quote(lo, hi) => (text[lo] == QUOTE || text[lo] == DQUOTE) && hi == QuoteEnd(text, lo)
  }

  /** By how much a stretch moves the line count away from the line feeds. */
  function Drift(text: Text, s: Stretch): int
    requires s.lo < s.hi <= |text|
  {
    match s
    case Regex(lo, hi) => LineFeeds(text, lo) - LineFeeds(text, hi)
    case Quote(lo, hi) => LoneReturns(text, lo + 1, hi)
  }

  /** `raw` is the quoted body up to `i`, in which `counted` lines were counted. */
  ghost predicate InQuote(text: Text, lo: nat, i: nat, raw: Text, counted: int) {
    && lo < i <= |text| && (text[lo] == QUOTE || text[lo] == DQUOTE) && i <= QuoteEnd(text, lo) && raw == text[lo + 1..i]
    && RawEnd(text, i, Quoted(text[lo])) == RawEnd(text, lo + 1, Quoted(text[lo]))
    && counted + QuoteLines(text, i, QuoteEnd(text, lo)) == QuoteLines(text, lo + 1, QuoteEnd(text, lo))
  }

  lemma QuoteStarts(text: Text, lo: nat)
    requires lo < |text| && (text[lo] == QUOTE || text[lo] == DQUOTE)
    ensures InQuote(text, lo, lo + 1, [], 0)
  {
  }

  lemma QuotePlain(text: Text, lo: nat, i: nat, raw: Text, counted: int)
    requires i < |text| && InQuote(text, lo, i, raw, counted) && text[i] != text[lo] && !(text[i] == BACKSLASH && i + 1 < |text|)
    ensures InQuote(text, lo, i + 1, raw + [text[i]], counted + if text[i] == LF then 1 else 0)
  {
    assert LineFeeds(text, i + 1) == LineFeeds(text, i) + if text[i] == LF then 1 else 0;
  }

  lemma QuotePair(text: Text, lo: nat, i: nat, raw: Text, counted: int)
    requires i + 1 < |text| && InQuote(text, lo, i, raw, counted) && text[i] == BACKSLASH
    ensures InQuote(text, lo, i + 2, raw + [text[i], text[i + 1]], counted + if text[i + 1] == LF || LoneReturn(text, i) then 1 else 0)
  {
    assert LineFeeds(text, i + 1) == LineFeeds(text, i);
    assert LineFeeds(text, i + 2) == LineFeeds(text, i + 1) + if text[i + 1] == LF then 1 else 0;
  }

  lemma QuoteCloses(o: Setting, text: Text, lo: nat, i: nat, raw: Text, counted: int)
    requires InQuote(text, lo, i, raw, counted) && (i < |text| ==> text[i] == text[lo])
    ensures raw == text[lo + 1..RawEnd(text, lo + 1, Quoted(text[lo]))] && QuoteEnd(text, lo) == if i < |text| then i + 1 else i
    ensures StretchOk(o, text, Quote(lo, QuoteEnd(text, lo)))
    ensures counted == LineFeeds(text, QuoteEnd(text, lo)) - LineFeeds(text, lo) + Drift(text, Quote(lo, QuoteEnd(text, lo)))
  {
    hide LineFeeds, LoneReturns;
    if i < |text| { assert AtDelimiter(text, i, Quoted(text[lo])) && RawEnd(text, i, Quoted(text[lo])) == i; }
    NoLinesLeft(text, i, QuoteEnd(text, lo));
    NoLinesLeft(text, lo, lo + 1);
  }

  /** A closing quote, or the end, counts nothing. */
  lemma NoLinesLeft(text: Text, i: nat, hi: nat)
    requires i <= |text| && hi == if i < |text| then i + 1 else i
    requires i < |text| ==> text[i] == QUOTE || text[i] == DQUOTE
    ensures QuoteLines(text, i, hi) == 0 && LineFeeds(text, hi) == LineFeeds(text, i)
  {
    if i < |text| {
      assert LineFeeds(text, i + 1) == LineFeeds(text, i);
      assert LoneReturns(text, i, i + 1) == LoneReturns(text, i + 1, i + 1) == 0;
    }
  }

  ghost predicate StretchesOk(o: Setting, text: Text, passed: seq<Stretch>) {
    && (forall i :: 0 <= i < |passed| ==> StretchOk(o, text, passed[i]))
    && (forall i, j :: 0 <= i < j < |passed| ==> passed[i].hi <= passed[j].lo)
  }

  /** The drift of the stretches that end by `p`. */
  ghost function DriftBefore(o: Setting, text: Text, passed: seq<Stretch>, p: int): int
    requires StretchesOk(o, text, passed)
    decreases |passed|
  {
    if passed == [] then 0
    else
      var last := passed[|passed| - 1];
      DriftBefore(o, text, passed[..|passed| - 1], p) + (if last.hi <= p then Drift(text, last) else 0)
  }

  /** The line number of a position: one plus the line feeds before it, minus the escaped
      ones in regexes passed, plus the escaped lone carriage returns in strings passed. */
  ghost function LineAt(o: Setting, text: Text, passed: seq<Stretch>, p: nat): int
    requires p <= |text| && StretchesOk(o, text, passed)
  {
    1 + LineFeeds(text, p) + DriftBefore(o, text, passed, p)
  }

  /** The token is on its line, and a quoted string is among the stretches passed. */
  ghost predicate LineOk(o: Setting, text: Text, passed: seq<Stretch>, t: Token) {
    && StretchesOk(o, text, passed) && 0 <= t.start <= |text| && t.lineno == LineAt(o, text, passed, t.start)
    && (Quoting(text, t) ==> Quote(t.start, t.end) in passed)
  }

  predicate Quoting(text: Text, t: Token) {
    t.kind.StringToken? && 0 <= t.start < |text| && 0 <= t.end && (text[t.start] == QUOTE || text[t.start] == DQUOTE)
  }

  /** The scanner stands at `index` on `line`; every stretch passed ends by then, and every
      token so far starts before and is on its line. */
  ghost predicate At(o: Setting, text: Text, passed: seq<Stretch>, tokens: seq<Token>, index: nat, line: int) {
    && StretchesOk(o, text, passed) && index <= |text|
    && (forall i :: 0 <= i < |passed| ==> passed[i].hi <= index)
    && line == LineAt(o, text, passed, index)
    && (forall t :: t in tokens ==> t.start < index && LineOk(o, text, passed, t))
  }

  /** Stretches passed since `index`. */
  ghost predicate Grows(before: seq<Stretch>, after: seq<Stretch>, index: nat) {
    && |before| <= |after| && after[..|before|] == before
    && forall i :: |before| <= i < |after| ==> after[i].lo >= index
  }

  lemma GrowsTwice(a: seq<Stretch>, b: seq<Stretch>, c: seq<Stretch>, lo: nat, mid: nat)
    requires lo <= mid && Grows(a, b, lo) && Grows(b, c, mid)
    ensures Grows(a, c, lo)
  {
    assert c[..|a|] == c[..|b|][..|a|];
    forall i | |a| <= i < |c| ensures c[i].lo >= lo {
      if i < |b| { assert c[i] == c[..|b|][i]; }
    }
  }

  lemma GrowsNot(a: seq<Stretch>, lo: nat)
    ensures Grows(a, a, lo)
  {
  }

  lemma GrowsEarlier(a: seq<Stretch>, b: seq<Stretch>, lo: nat, mid: nat)
    requires lo <= mid && Grows(a, b, mid)
    ensures Grows(a, b, lo)
  {
  }

  lemma {:induction false} DriftStays(o: Setting, text: Text, passed: seq<Stretch>, p: int, q: int)
    requires StretchesOk(o, text, passed) && p <= q && forall i :: 0 <= i < |passed| ==> passed[i].hi <= p
    ensures DriftBefore(o, text, passed, p) == DriftBefore(o, text, passed, q)
    decreases |passed|
  {
    hide Drift, StretchOk;
    if passed != [] {
      var init := passed[..|passed| - 1];
      forall i | 0 <= i < |init| ensures init[i].hi <= p {
        assert init[i] == passed[i];
      }
      DriftStays(o, text, init, p, q);
    }
  }

  /** Stretches passed later do not move the line of an earlier position. */
  lemma {:induction false} LineStays(o: Setting, text: Text, before: seq<Stretch>, after: seq<Stretch>, p: nat)
    requires StretchesOk(o, text, after) && Grows(before, after, p) && p <= |text|
    ensures StretchesOk(o, text, before) && LineAt(o, text, after, p) == LineAt(o, text, before, p)
    decreases |after|
  {
    hide Drift, StretchOk;
    assert forall i :: 0 <= i < |before| ==> before[i] == after[i];
    if |after| > |before| {
      var init := after[..|after| - 1];
      assert init[..|before|] == before;
      LineStays(o, text, before, init, p);
      assert StretchOk(o, text, after[|after| - 1]);
      StretchAdvances(o, text, after[|after| - 1]);
    } else {
      assert after == before;
    }
  }

  lemma StretchAdvances(o: Setting, text: Text, s: Stretch)
    requires StretchOk(o, text, s)
    ensures s.lo < s.hi <= |text|
  {
  }

  lemma StepPlain(o: Setting, text: Text, passed: seq<Stretch>, tokens: seq<Token>, index: nat, next: nat, line: int)
    requires index <= next <= |text| && At(o, text, passed, tokens, index, line)
    requires forall k :: index <= k < next ==> text[k] != LF
    ensures At(o, text, passed, tokens, next, line)
  {
    hide StretchesOk, LineOk, DriftBefore;
    NoLineFeeds(text, index, next);
    DriftStays(o, text, passed, index, next);
  }

  lemma StepChar(o: Setting, text: Text, passed: seq<Stretch>, tokens: seq<Token>, index: nat, line: int)
    requires index < |text| && At(o, text, passed, tokens, index, line)
    ensures At(o, text, passed, tokens, index + 1, if text[index] == LF then line + 1 else line)
  {
    hide StretchesOk, LineOk, DriftBefore;
    DriftStays(o, text, passed, index, index + 1);
  }

  /** An escaped pair inside a template. */
  lemma StepEscape(o: Setting, text: Text, passed: seq<Stretch>, tokens: seq<Token>, index: nat, line: int)
    requires index + 1 < |text| && text[index] == BACKSLASH && At(o, text, passed, tokens, index, line)
    ensures At(o, text, passed, tokens, index + 2, if text[index + 1] == LF then line + 1 else line)
  {
    hide At;
    StepChar(o, text, passed, tokens, index, line);
    StepChar(o, text, passed, tokens, index + 1, line);
  }

  /** A regex or a quoted string is passed. */
  lemma StepStretch(o: Setting, text: Text, passed: seq<Stretch>, tokens: seq<Token>, index: nat, line: int, s: Stretch)
    requires At(o, text, passed, tokens, index, line) && StretchOk(o, text, s) && s.lo == index
    ensures index < s.hi <= |text|
    ensures At(o, text, passed + [s], tokens, s.hi, line + LineFeeds(text, s.hi) - LineFeeds(text, s.lo) + Drift(text, s))
    ensures Grows(passed, passed + [s], index)
  {
    hide Drift, DriftBefore, StretchOk, LineAt;
    StretchAdvances(o, text, s);
    var longer := passed + [s];
    assert longer[..|passed|] == passed;
    assert StretchesOk(o, text, longer);
    forall t | t in tokens ensures LineOk(o, text, longer, t) {
      LineStays(o, text, passed, longer, t.start);
    }
    LineAfter(o, text, passed, s, index);
  }

  lemma LineAfter(o: Setting, text: Text, passed: seq<Stretch>, s: Stretch, index: nat)
    requires StretchesOk(o, text, passed + [s]) && StretchesOk(o, text, passed) && s.lo == index < s.hi <= |text|
    requires forall i :: 0 <= i < |passed| ==> passed[i].hi <= index
    ensures LineAt(o, text, passed + [s], s.hi) ==
              LineAt(o, text, passed, index) + LineFeeds(text, s.hi) - LineFeeds(text, s.lo) + Drift(text, s)
  {
    hide Drift, StretchOk;
    DriftStays(o, text, passed, index, s.hi);
    assert (passed + [s])[..|passed|] == passed;
  }

  /** A token emitted for the stretch just scanned. */
  lemma StepToken(o: Setting, text: Text, passed: seq<Stretch>, tokens: seq<Token>, index: nat, line: int, t: Token, longer: seq<Token>)
    requires At(o, text, passed, tokens, index, line) && t.start < index && LineOk(o, text, passed, t)
    requires forall u :: u in longer ==> u in tokens || u == t
    ensures At(o, text, passed, longer, index, line)
  {
    hide StretchesOk, LineOk, LineAt;
  }

  /** A token that starts where the scanner stands is on the scanner's line, also after
      more stretches have been passed from there on. */
  lemma LineOfStart(o: Setting, text: Text, before: seq<Stretch>, tokens: seq<Token>, index: nat, line: int, after: seq<Stretch>, t: Token)
    requires At(o, text, before, tokens, index, line) && StretchesOk(o, text, after) && Grows(before, after, index)
    requires t.start == index && t.lineno == line && (Quoting(text, t) ==> Quote(t.start, t.end) in after)
    ensures LineOk(o, text, after, t)
  {
    hide DriftBefore;
    LineStays(o, text, before, after, index);
  }

  lemma AtStretches(o: Setting, text: Text, passed: seq<Stretch>, tokens: seq<Token>, index: nat, line: int)
    requires At(o, text, passed, tokens, index, line)
    ensures StretchesOk(o, text, passed) && index <= |text|
  {
  }

  /** No backslash directly before a line feed, nor before a carriage return standing alone. */
  predicate Tame(text: Text) {
    forall i :: 0 <= i < |text| ==> !EscapedBreak(text, i)
  }

  predicate EscapedBreak(text: Text, i: nat)
    requires i < |text|
  {
    text[i] == BACKSLASH && i + 1 < |text| && (text[i + 1] == LF || LoneReturn(text, i))
  }

  /** In a tame text no stretch drifts, so a line number is one plus the line feeds before. */
  lemma {:induction false} TameLines(o: Setting, text: Text, passed: seq<Stretch>, p: nat)
    requires Sensible(o) && Tame(text) && StretchesOk(o, text, passed) && p <= |text|
    ensures LineAt(o, text, passed, p) == 1 + LineFeeds(text, p)
    decreases |passed|
  {
    hide Drift, Tame, StretchOk;
    if passed != [] {
      var last := passed[|passed| - 1];
      TameLines(o, text, passed[..|passed| - 1], p);
      assert StretchOk(o, text, last);
      StretchAdvances(o, text, last);
      TameStretch(o, text, last);
    }
  }

  lemma TameStretch(o: Setting, text: Text, s: Stretch)
    requires Sensible(o) && Tame(text) && StretchOk(o, text, s)
    ensures Drift(text, s) == 0
  {
    hide RegexEnd;
    if s.Regex? {
      forall k | s.lo <= k < s.hi ensures text[k] != LF {
        if k > s.lo {
          assert !EscapedBreak(text, k - 1);
          if text[k] == LF { RegexFeedsAreEscaped(o, text, s.lo + 1, false, k); }
        }
      }
      NoLineFeeds(text, s.lo, s.hi);
    } else {
      TameReturns(text, s.lo + 1, s.hi);
    }
  }

  lemma {:induction false} TameReturns(text: Text, i: nat, hi: nat)
    requires Tame(text) && hi <= |text|
    ensures LoneReturns(text, i, hi) == 0
    decreases hi - i
  {
    if i < hi {
      assert !EscapedBreak(text, i);
      TameReturns(text, i + 1, hi);
      TameReturns(text, i + 2, hi);
    }
  }
}
