/** The comment and string stripper of scripts/check_session_mutation_admission.py, and the
    "admission before effect" test that runs on what it leaves. */
module RustStrip {
  import opened Text
  import opened Lists

  const LETTER_R := 114

  // ------------------------------------------------------------------ searching

  predicate At(t: Text, needle: Text, k: int) {
    0 <= k && k + |needle| <= |t| && t[k..k + |needle|] == needle
  }

  /** Python's `t.find(needle, from)`. */
  function Find(t: Text, needle: Text, from: nat): (r: int)
    ensures r == -1 || (r >= from && At(t, needle, r))
    ensures forall k :: from <= k && At(t, needle, k) ==> 0 <= r <= k
    decreases |t| - from
  {
    if from + |needle| > |t| then -1 else if At(t, needle, from) then from else Find(t, needle, from + 1)
  }

  lemma AtInRest(t: Text, needle: Text, i: nat, k: int)
    requires i <= |t| && k >= 0
    ensures At(t[i..], needle, k) <==> At(t, needle, i + k)
  {
    if i + k + |needle| <= |t| { assert t[i..][k..k + |needle|] == t[i + k..i + k + |needle|]; }
  }

  lemma FindInRest(t: Text, needle: Text, i: nat, from: nat)
    requires i <= |t|
    ensures Find(t, needle, i + from) == if Find(t[i..], needle, from) >= 0 then i + Find(t[i..], needle, from) else -1
  {
    hide Find, At;
    var a, b := Find(t, needle, i + from), Find(t[i..], needle, from);
    if a >= 0 { AtInRest(t, needle, i, a - i); }
    if b >= 0 { AtInRest(t, needle, i, b); }
  }

  // ------------------------------------------------------------------ segments

  /** What a Rust text is made of, as far as the stripper tells. The last four forms are
      left open only at the end of the text. */
  datatype Segment =
    | Code(c: int)
    | LineComment(body: Text)
    | BlockComment(body: Text, closed: bool)
    | Quoted(body: Text, closed: bool)
    | Raw(hashes: nat, body: Text, closed: bool)

  function Hashes(n: nat): (r: Text)
    ensures |r| == n
    ensures forall i :: 0 <= i < n ==> r[i] == HASH
  {
    seq(n, i => HASH)
  }

  const BLOCK_END: Text := [STAR, SLASH]

  function RawEnd(n: nat): Text { [DQUOTE] + Hashes(n) }

  function Write(s: Segment): Text {
    match s
    case Code(c) => [c]
    case LineComment(body) => [SLASH, SLASH] + body
    case BlockComment(body, closed) => [SLASH, STAR] + body + (if closed then BLOCK_END else [])
    case Quoted(body, closed) => [DQUOTE] + body + (if closed then [DQUOTE] else [])
    case Raw(n, body, closed) => [LETTER_R] + Hashes(n) + [DQUOTE] + body + (if closed then RawEnd(n) else [])
  }

  ghost predicate Occurs(needle: Text, t: Text) {
    exists k :: At(t, needle, k)
  }

  /** The body of a literal: plain characters and escapes, with a lone backslash allowed at
      the end of an open one. */
  predicate Escaped(body: Text, closed: bool) {
    if body == [] then true
    else if body[0] == BACKSLASH then (|body| == 1 && !closed) || (|body| > 1 && Escaped(body[2..], closed))
    else body[0] != DQUOTE && Escaped(body[1..], closed)
  }

  /** A terminator that `end` first meets right after the body, or never. */
  ghost predicate Ends(body: Text, end: Text, closed: bool, rest: Text) {
    if closed then forall k :: 0 <= k < |body| ==> !At(body + end, end, k)
    else rest == [] && !Occurs(end, body)
  }

  ghost predicate OpensRaw(rest: Text) {
    exists n: nat :: n < |rest| && rest[n] == DQUOTE && forall k :: 0 <= k < n ==> rest[k] == HASH
  }

  /** The segment can be read as such in front of the rest. */
  ghost predicate Fits(s: Segment, rest: Text) {
    match s
    case Code(c) =>
      c != DQUOTE &&
      (c == SLASH && rest != [] ==> rest[0] != SLASH && rest[0] != STAR) &&
      (c == LETTER_R ==> !OpensRaw(rest))
    case LineComment(body) => LF !in body && (rest == [] || rest[0] == LF)
    case BlockComment(body, closed) => Ends(body, BLOCK_END, closed, rest)
    case Quoted(body, closed) => Escaped(body, closed) && (closed || rest == [])
    case Raw(n, body, closed) => Ends(body, RawEnd(n), closed, rest)
  }

  function Print(segments: seq<Segment>): Text {
    if segments == [] then [] else Write(segments[0]) + Print(segments[1..])
  }

  ghost predicate WellFormed(segments: seq<Segment>) {
    segments == [] || (Fits(segments[0], Print(segments[1..])) && WellFormed(segments[1..]))
  }

  /** The code characters. */
  function Codes(segments: seq<Segment>): Text {
    if segments == [] then []
    else (if segments[0].Code? then [segments[0].c] else []) + Codes(segments[1..])
  }

  // ------------------------------------------------------------------ stripping

  /** How many hash signs a text starts with. */
  function HashRun(t: Text): (n: nat)
    ensures n <= |t| && (forall k :: 0 <= k < n ==> t[k] == HASH) && (n < |t| ==> t[n] != HASH)
  {
    if t != [] && t[0] == HASH then 1 + HashRun(t[1..]) else 0
  }

  /** Where a literal that is open at j ends; past the text after a final backslash. */
  function QuoteEnd(t: Text, j: nat): (r: nat)
    ensures j <= |t| ==> j <= r <= |t| + 1
    ensures j == |t| + 1 ==> r == j
    decreases |t| + 1 - j
  {
    if j >= |t| then j
    else if t[j] == BACKSLASH then QuoteEnd(t, j + 2)
    else if t[j] == DQUOTE then j + 1
    else QuoteEnd(t, j + 1)
  }

  /** Length of the comment or string a text starts with; 0 in front of a code character. */
  function HiddenLength(t: Text): (n: nat)
    requires t != []
    ensures n <= |t| + 1
  {
    if t[0] == LETTER_R && |t| > 1 && (t[1] == DQUOTE || t[1] == HASH) then
      var n := HashRun(t[1..]);
      if n + 1 < |t| && t[n + 1] == DQUOTE then
        var end := Find(t, RawEnd(n), n + 2);
        if end >= 0 then end + n + 1 else |t|
      else 0
    else if t[0] == DQUOTE then QuoteEnd(t, 1)
    else if t[0] == SLASH && |t| > 1 && t[1] == SLASH then
      var end := Find(t, [LF], 2);
      if end >= 0 then end else |t|
    else if t[0] == SLASH && |t| > 1 && t[1] == STAR then
      var end := Find(t, BLOCK_END, 2);
      if end >= 0 then end + 2 else |t|
    else 0
  }

  /** What is left of a text from an offset that may lie one past its end. */
  function From(t: Text, i: nat): (r: Text)
    ensures i > 0 && t != [] ==> |r| < |t|
  {
    if i <= |t| then t[i..] else []
  }

  /** What the stripper leaves of a text. */
  function Stripped(t: Text): (r: Text)
    decreases |t|
  {
    if t == [] then []
    else if HiddenLength(t) == 0 then [t[0]] + Stripped(t[1..])
    else Stripped(From(t, HiddenLength(t)))
  }

  lemma QuoteEndInRest(t: Text, i: nat, j: nat)
    requires i <= |t| && j <= |t| - i + 1
    ensures QuoteEnd(t, i + j) == i + QuoteEnd(t[i..], j)
    decreases |t| - j
  {
  }

  lemma HashRunIs(t: Text, n: nat)
    requires n <= |t| && (forall k :: 0 <= k < n ==> t[k] == HASH) && (n < |t| ==> t[n] != HASH)
    ensures HashRun(t) == n
  {
  }

  /** What is left from an offset on. */
  function Rest(t: Text, i: nat): Text { Stripped(From(t, i)) }

  lemma Skips(t: Text, i: nat, h: nat)
    requires i < |t| && h == HiddenLength(t[i..]) && h > 0
    ensures Rest(t, i) == Rest(t, i + h)
  {
    if i + h <= |t| { assert t[i..][h..] == t[i + h..]; }
  }

  lemma Keeps(t: Text, i: nat)
    requires i < |t| && HiddenLength(t[i..]) == 0
    ensures Rest(t, i) == [t[i]] + Rest(t, i + 1)
  {
    assert t[i..][1..] == t[i + 1..];
  }

  predicate RawAhead(t: Text, i: nat) {
    i + 1 < |t| && t[i] == LETTER_R && (t[i + 1] == DQUOTE || t[i + 1] == HASH)
  }

  lemma SkipsRaw(t: Text, i: nat, hashes: nat)
    requires RawAhead(t, i) && i + 1 + hashes <= |t| && forall k :: i + 1 <= k < i + 1 + hashes ==> t[k] == HASH
    requires i + 1 + hashes < |t| ==> t[i + 1 + hashes] != HASH
    ensures i + 1 + hashes < |t| && t[i + 1 + hashes] == DQUOTE ==>
              var end := Find(t, RawEnd(hashes), i + hashes + 2);
              Rest(t, i) == Rest(t, if end >= 0 then end + |RawEnd(hashes)| else |t|)
    ensures !(i + 1 + hashes < |t| && t[i + 1 + hashes] == DQUOTE) ==> Rest(t, i) == [t[i]] + Rest(t, i + 1)
  {
    hide Find, At, Rest;
    var rest := t[i..];
    HashRunIs(rest[1..], hashes);
    if i + 1 + hashes < |t| && t[i + 1 + hashes] == DQUOTE {
      FindInRest(t, RawEnd(hashes), i, hashes + 2);
      Skips(t, i, HiddenLength(rest));
    } else {
      Keeps(t, i);
    }
  }

  lemma SkipsQuoted(t: Text, i: nat)
    requires i < |t| && t[i] == DQUOTE
    ensures Rest(t, i) == Rest(t, QuoteEnd(t, i + 1))
  {
    hide Rest;
    QuoteEndInRest(t, i, 1);
    Skips(t, i, HiddenLength(t[i..]));
  }

  lemma SkipsComment(t: Text, i: nat)
    requires i + 1 < |t| && t[i] == SLASH && (t[i + 1] == SLASH || t[i + 1] == STAR)
    ensures var end := if t[i + 1] == SLASH then Find(t, [LF], i + 2) else Find(t, BLOCK_END, i + 2);
            Rest(t, i) == Rest(t, if end < 0 then |t| else if t[i + 1] == SLASH then end else end + 2)
  {
    hide Find, At, Rest;
    FindInRest(t, [LF], i, 2);
    FindInRest(t, BLOCK_END, i, 2);
    Skips(t, i, HiddenLength(t[i..]));
  }

  lemma KeepsOther(t: Text, i: nat)
    requires i < |t| && t[i] != DQUOTE && !RawAhead(t, i)
    requires t[i] == SLASH && i + 1 < |t| ==> t[i + 1] != SLASH && t[i + 1] != STAR
    ensures Rest(t, i) == [t[i]] + Rest(t, i + 1)
  {
    hide Rest;
    Keeps(t, i);
  }

  method StripRustCommentsAndStrings(text: Text) returns (out: Text)
    ensures out == Stripped(text)
  {
    hide Find, At, RawEnd, Rest, Stripped, HiddenLength, From;
    out := [];
    var i, n := 0, |text|;
    Whole(text);
    while i < n
      invariant i <= n + 1
      invariant out + Rest(text, i) == Stripped(text)
      decreases n + 1 - i
    {
      var ch := text[i];
      if ch == LETTER_R && i + 1 < n && (text[i + 1] == DQUOTE || text[i + 1] == HASH) {
        var j, hashes := i + 1, 0;
        while j < n && text[j] == HASH
          invariant j == i + 1 + hashes && j <= n
          invariant forall k :: i + 1 <= k < j ==> text[k] == HASH
        {
          hashes := hashes + 1;
          j := j + 1;
        }
        SkipsRaw(text, i, hashes);
        if j < n && text[j] == DQUOTE {
          var closing := RawEnd(hashes);
          var end := Find(text, closing, j + 1);
          EndsWithin(text, closing, j + 1);
          i := if end >= 0 then end + |closing| else n;
          continue;
        }
        out := out + [ch];
        i := i + 1;
        continue;
      }
      if ch == DQUOTE {
        SkipsQuoted(text, i);
        i := CloseQuote(text, i + 1);
        continue;
      }
      if ch == SLASH && i + 1 < n {
        var nxt := text[i + 1];
        if nxt == SLASH {
          SkipsComment(text, i);
          var end := Find(text, [LF], i + 2);
          EndsWithin(text, [LF], i + 2);
          i := if end >= 0 then end else n;
          continue;
        }
        if nxt == STAR {
          SkipsComment(text, i);
          var end := Find(text, BLOCK_END, i + 2);
          EndsWithin(text, BLOCK_END, i + 2);
          i := if end >= 0 then end + 2 else n;
          continue;
        }
      }
      KeepsOther(text, i);
      out := out + [ch];
      i := i + 1;
    }
    NothingLeft(text, i);
  }

  lemma Whole(t: Text)
    ensures Rest(t, 0) == Stripped(t)
  {
    assert t[0..] == t;
  }

  lemma NothingLeft(t: Text, i: nat)
    requires i >= |t|
    ensures Rest(t, i) == []
  {
  }

  lemma EndsWithin(t: Text, needle: Text, from: nat)
    ensures Find(t, needle, from) >= 0 ==> from <= Find(t, needle, from) && Find(t, needle, from) + |needle| <= |t|
  {
  }

  /** The inner loop over a string literal. */
  method CloseQuote(text: Text, start: nat) returns (j: nat)
    requires start <= |text|
    ensures j == QuoteEnd(text, start) && start <= j <= |text| + 1
  {
    j := start;
    while j < |text|
      invariant start <= j <= |text| + 1
      invariant QuoteEnd(text, j) == QuoteEnd(text, start)
    {
      if text[j] == BACKSLASH {
        j := j + 2;
        continue;
      }
      if text[j] == DQUOTE {
        j := j + 1;
        return;
      }
      j := j + 1;
    }
  }

  // ------------------------------------------------------------------ reading and writing

  lemma EndsFound(prefix: Text, body: Text, end: Text, closed: bool, rest: Text)
    requires Ends(body, end, closed, rest) && end != []
    ensures var t := prefix + body + (if closed then end else []) + rest;
            Find(t, end, |prefix|) == if closed then |prefix| + |body| else -1
  {
    hide At, Find;
    var t := prefix + body + (if closed then end else []) + rest;
    if closed {
      AtHere(prefix + body, end, rest);
      assert prefix + (body + end) + rest == t;
      var r := Find(t, end, |prefix|);
      if r < |prefix| + |body| {
        AtPart(prefix, body + end, rest, end, r - |prefix|);
        assert false;
      }
    } else {
      assert t == prefix + body && t[|prefix|..] == body;
      var r := Find(t, end, |prefix|);
      if r >= 0 {
        AtInRest(t, end, |prefix|, r - |prefix|);
        assert false;
      }
    }
  }

  lemma AtHere(before: Text, needle: Text, after: Text)
    ensures At(before + needle + after, needle, |before|)
  {
  }

  lemma AtPart(before: Text, part: Text, after: Text, needle: Text, k: int)
    requires 0 <= k && k + |needle| <= |part|
    ensures At(before + part + after, needle, |before| + k) <==> At(part, needle, k)
  {
    assert (before + part + after)[|before| + k..|before| + k + |needle|] == part[k..k + |needle|];
  }

  lemma {:induction false} QuoteEndOfBody(prefix: Text, body: Text, closed: bool, rest: Text)
    requires Escaped(body, closed) && (closed || rest == [])
    ensures var t := prefix + body + (if closed then [DQUOTE] else []) + rest;
            var r := QuoteEnd(t, |prefix|);
            if closed then r == |prefix| + |body| + 1 else r >= |t|
    decreases |body|
  {
    var tail := if closed then [DQUOTE] else [];
    var t := prefix + body + tail + rest;
    if body != [] {
      assert t[|prefix|] == body[0];
      if body[0] == BACKSLASH {
        if |body| > 1 {
          assert t == (prefix + body[..2]) + body[2..] + tail + rest;
          QuoteEndOfBody(prefix + body[..2], body[2..], closed, rest);
        }
      } else {
        assert t == (prefix + [body[0]]) + body[1..] + tail + rest;
        QuoteEndOfBody(prefix + [body[0]], body[1..], closed, rest);
      }
    }
  }

  /** The segment at the front of a text is hidden whole, or is one code character. */
  ghost predicate Recognised(s: Segment, rest: Text) {
    var t := Write(s) + rest;
    if s.Code? then HiddenLength(t) == 0
    else HiddenLength(t) == |Write(s)| || (rest == [] && HiddenLength(t) > |Write(s)|)
  }

  lemma CodeIsRecognised(s: Segment, rest: Text)
    requires s.Code? && Fits(s, rest)
    ensures Recognised(s, rest)
  {
    var t := Write(s) + rest;
    if s.c == LETTER_R && rest != [] {
      var n := HashRun(t[1..]);
      assert t[1..] == rest;
      assert !(n < |rest| && rest[n] == DQUOTE);
    }
  }

  lemma LineIsRecognised(s: Segment, rest: Text)
    requires s.LineComment? && Fits(s, rest)
    ensures Recognised(s, rest)
  {
    var t := Write(s) + rest;
    var r := Find(t, [LF], 2);
    assert forall k :: 2 <= k < 2 + |s.body| ==> t[k] in s.body;
    if r >= 0 {
      assert t[r..r + 1] == [LF] && t[r] == LF;
      assert rest != [];
    }
    if rest != [] {
      assert t[2 + |s.body|..3 + |s.body|] == [LF];
      assert At(t, [LF], 2 + |s.body|);
    }
  }

  lemma BlockIsRecognised(s: Segment, rest: Text)
    requires s.BlockComment? && Fits(s, rest)
    ensures Recognised(s, rest)
  {
    hide Find, At, Ends;
    EndsFound([SLASH, STAR], s.body, BLOCK_END, s.closed, rest);
    assert Write(s) + rest == [SLASH, STAR] + s.body + (if s.closed then BLOCK_END else []) + rest;
    if !s.closed { OpenIsLast(s.body, BLOCK_END, rest); }
  }

  lemma OpenIsLast(body: Text, end: Text, rest: Text)
    requires Ends(body, end, false, rest)
    ensures rest == []
  {
  }

  lemma QuotedIsRecognised(s: Segment, rest: Text)
    requires s.Quoted? && Fits(s, rest)
    ensures Recognised(s, rest)
  {
    QuoteEndOfBody([DQUOTE], s.body, s.closed, rest);
    assert Write(s) + rest == [DQUOTE] + s.body + (if s.closed then [DQUOTE] else []) + rest;
  }

  lemma RawIsRecognised(s: Segment, rest: Text)
    requires s.Raw? && Fits(s, rest)
    ensures Recognised(s, rest)
  {
    hide Find, At, Ends;
    var n := s.hashes;
    var prefix := [LETTER_R] + Hashes(n) + [DQUOTE];
    var t := Write(s) + rest;
    EndsFound(prefix, s.body, RawEnd(n), s.closed, rest);
    assert t == prefix + s.body + (if s.closed then RawEnd(n) else []) + rest;
    assert t[n + 1] == DQUOTE && forall k :: 1 <= k < n + 1 ==> t[k] == HASH;
    HashRunIs(t[1..], n);
    if !s.closed { OpenIsLast(s.body, RawEnd(n), rest); }
  }

  lemma SegmentIsRecognised(s: Segment, rest: Text)
    requires Fits(s, rest)
    ensures Recognised(s, rest)
  {
    hide Fits, Recognised;
    match s
    case Code(_) => CodeIsRecognised(s, rest);
    case LineComment(_) => LineIsRecognised(s, rest);
    case BlockComment(_, _) => BlockIsRecognised(s, rest);
    case Quoted(_, _) => QuotedIsRecognised(s, rest);
    case Raw(_, _, _) => RawIsRecognised(s, rest);
  }

  lemma RecognisedStrips(s: Segment, rest: Text)
    requires Recognised(s, rest)
    ensures Stripped(Write(s) + rest) == (if s.Code? then [s.c] else []) + Stripped(rest)
  {
    var t := Write(s) + rest;
    hide HiddenLength;
    if s.Code? {
      assert t[1..] == rest;
    } else if HiddenLength(t) == |Write(s)| {
      assert t[|Write(s)|..] == rest;
    }
  }

  /** Stripping the text of a well-formed list of segments leaves exactly its code. */
  lemma {:induction false} StrippedIsCode(segments: seq<Segment>)
    requires WellFormed(segments)
    ensures Stripped(Print(segments)) == Codes(segments)
  {
    hide Fits, Recognised, Write;
    if segments != [] {
      SegmentIsRecognised(segments[0], Print(segments[1..]));
      RecognisedStrips(segments[0], Print(segments[1..]));
      StrippedIsCode(segments[1..]);
    }
  }

  // ------------------------------------------------------------------ every text is read

  /** The hidden segment at the front of a text. */
  ghost function Front(t: Text): Segment
    requires t != [] && HiddenLength(t) > 0
  {
    var h := if HiddenLength(t) <= |t| then HiddenLength(t) else |t|;
    if t[0] == LETTER_R then
      var n := HashRun(t[1..]);
      var end := Find(t, RawEnd(n), n + 2);
      if end >= 0 then Raw(n, t[n + 2..end], true) else Raw(n, t[n + 2..], false)
    else if t[0] == DQUOTE then
      if HiddenLength(t) <= |t| && QuoteCloses(t, 1) then Quoted(t[1..h - 1], true) else Quoted(t[1..], false)
    else if t[1] == SLASH then LineComment(t[2..h])
    else if Find(t, BLOCK_END, 2) >= 0 then BlockComment(t[2..h - 2], true)
    else BlockComment(t[2..], false)
  }

  /** A literal open at j is closed before the text ends. */
  predicate QuoteCloses(t: Text, j: nat)
    ensures QuoteCloses(t, j) ==> j < QuoteEnd(t, j) <= |t| && t[QuoteEnd(t, j) - 1] == DQUOTE
    decreases |t| + 1 - j
  {
    if j >= |t| then false
    else if t[j] == BACKSLASH then QuoteCloses(t, j + 2)
    else t[j] == DQUOTE || QuoteCloses(t, j + 1)
  }

  lemma {:induction false} QuoteBody(t: Text, j: nat)
    requires j <= |t|
    ensures var closes := QuoteCloses(t, j);
            var end := QuoteEnd(t, j);
            (closes ==> Escaped(t[j..end - 1], true)) && (!closes ==> end >= |t| && Escaped(t[j..], false))
    decreases |t| - j
  {
    if j < |t| {
      var end := QuoteEnd(t, j);
      if t[j] == BACKSLASH {
        if j + 2 <= |t| {
          QuoteBody(t, j + 2);
          if QuoteCloses(t, j) {
            assert t[j..end - 1][2..] == t[j + 2..end - 1];
          } else {
            assert t[j..][2..] == t[j + 2..];
          }
        }
      } else if t[j] != DQUOTE {
        QuoteBody(t, j + 1);
        if QuoteCloses(t, j) {
          assert t[j..end - 1][1..] == t[j + 1..end - 1];
        } else {
          assert t[j..][1..] == t[j + 1..];
        }
      }
    }
  }

  /** A reading of the front: the segment is what is skipped, and it fits. */
  ghost predicate FrontFits(t: Text)
    requires t != [] && HiddenLength(t) > 0
  {
    var rest := From(t, HiddenLength(t));
    Write(Front(t)) + rest == t && Fits(Front(t), rest) && !Front(t).Code?
  }

  lemma FoundEnds(t: Text, start: nat, end: Text)
    requires start <= |t| && end != []
    ensures var r := Find(t, end, start);
            if r >= 0 then r + |end| <= |t| && Ends(t[start..r], end, true, t[r + |end|..]) && t[start..r] + end + t[r + |end|..] == t[start..]
            else Ends(t[start..], end, false, [])
  {
    hide Find;
    var r := Find(t, end, start);
    if r >= 0 {
      var body := t[start..r];
      assert body + end == t[start..r + |end|];
      assert t[start..r + |end|] + t[r + |end|..] == t[start..];
      forall k | 0 <= k < |body| ensures !At(body + end, end, k) {
        AtPart(t[..start], body + end, t[r + |end|..], end, k);
        assert t[..start] + (body + end) + t[r + |end|..] == t;
      }
    } else {
      forall k ensures !At(t[start..], end, k) {
        if k >= 0 { AtInRest(t, end, start, k); }
      }
    }
  }

  lemma RawEndLength(n: nat)
    ensures |RawEnd(n)| == n + 1
  {
  }

  lemma RawOpens(t: Text)
    requires t != [] && HiddenLength(t) > 0 && t[0] == LETTER_R
    ensures var n := HashRun(t[1..]);
            && n + 2 <= |t| && t[n + 1] == DQUOTE
            && var end := Find(t, RawEnd(n), n + 2); HiddenLength(t) == if end >= 0 then end + n + 1 else |t|
  {
    hide Find, RawEnd, HashRun, QuoteEnd;
  }

  lemma RawShape(t: Text, n: nat)
    requires n + 2 <= |t| && t[0] == LETTER_R && t[n + 1] == DQUOTE && forall k :: 0 < k <= n ==> t[k] == HASH
    ensures t == [LETTER_R] + Hashes(n) + [DQUOTE] + t[n + 2..]
  {
    var opening := [LETTER_R] + Hashes(n) + [DQUOTE];
    forall k | 0 <= k < n + 2 ensures opening[k] == t[k] {
      if 0 < k <= n { assert opening[k] == Hashes(n)[k - 1]; }
    }
    assert t[..n + 2] == opening;
    assert t == t[..n + 2] + t[n + 2..];
  }

  lemma RawPrefix(t: Text)
    requires t != [] && HiddenLength(t) > 0 && t[0] == LETTER_R
    ensures var n := HashRun(t[1..]);
            && n + 2 <= |t| && t == [LETTER_R] + Hashes(n) + [DQUOTE] + t[n + 2..]
            && var end := Find(t, RawEnd(n), n + 2); HiddenLength(t) == if end >= 0 then end + n + 1 else |t|
  {
    hide Find, RawEnd, HashRun, HiddenLength, Hashes;
    var n := HashRun(t[1..]);
    RawOpens(t);
    assert forall k :: 0 < k <= n ==> t[k] == t[1..][k - 1];
    RawShape(t, n);
  }

  lemma RawFront(t: Text)
    requires t != [] && HiddenLength(t) > 0 && t[0] == LETTER_R
    ensures FrontFits(t)
  {
    hide Find, At, Ends, RawEnd, HashRun, QuoteEnd, QuoteCloses, Escaped, HiddenLength, Hashes;
    var n := HashRun(t[1..]);
    RawPrefix(t);
    RawEndLength(n);
    FoundEnds(t, n + 2, RawEnd(n));
    EndsWithin(t, RawEnd(n), n + 2);
    var end := Find(t, RawEnd(n), n + 2);
    var opening := [LETTER_R] + Hashes(n) + [DQUOTE];
    if end >= 0 {
      var body, rest := t[n + 2..end], t[end + n + 1..];
      assert From(t, HiddenLength(t)) == rest && Front(t) == Raw(n, body, true);
      assert opening + body + RawEnd(n) + rest == opening + (body + RawEnd(n) + rest);
    } else {
      assert From(t, HiddenLength(t)) == [] && Front(t) == Raw(n, t[n + 2..], false);
      assert opening + t[n + 2..] + [] + [] == t;
    }
  }

  lemma QuotedFront(t: Text)
    requires t != [] && t[0] == DQUOTE
    ensures HiddenLength(t) > 0 && FrontFits(t)
  {
    QuoteBody(t, 1);
    if QuoteCloses(t, 1) {
      var end := QuoteEnd(t, 1);
      assert t == [DQUOTE] + t[1..end - 1] + [DQUOTE] + t[end..];
    } else {
      assert t == [DQUOTE] + t[1..];
    }
  }

  lemma CommentFront(t: Text)
    requires t != [] && HiddenLength(t) > 0 && t[0] == SLASH
    ensures FrontFits(t)
  {
    hide Find, Ends;
    if t[1] == SLASH {
      LineFront(t);
    } else {
      FoundEnds(t, 2, BLOCK_END);
      EndsWithin(t, BLOCK_END, 2);
      assert t == [SLASH, STAR] + t[2..];
    }
  }

  lemma LineFront(t: Text)
    requires |t| > 1 && t[0] == SLASH && t[1] == SLASH
    ensures HiddenLength(t) > 0 && FrontFits(t)
  {
    var end := Find(t, [LF], 2);
    var stop := if end >= 0 then end else |t|;
    forall k | 2 <= k < stop ensures t[k] != LF {
      assert t[k..k + 1] == [t[k]];
      assert t[k] == LF ==> At(t, [LF], k);
    }
    if end >= 0 {
      assert t[end..end + 1] == [LF] && t[end] == LF;
      assert From(t, end)[0] == LF;
    }
    assert t == [SLASH, SLASH] + t[2..stop] + t[stop..];
  }

  lemma HiddenFronts(t: Text)
    requires t != [] && HiddenLength(t) > 0
    ensures FrontFits(t)
  {
    hide FrontFits;
    if t[0] == LETTER_R {
      RawFront(t);
    } else if t[0] == DQUOTE {
      QuotedFront(t);
    } else {
      CommentFront(t);
    }
  }

  /** The segments of a text. */
  ghost function Read(t: Text): seq<Segment>
    decreases |t|
  {
    if t == [] then []
    else if HiddenLength(t) == 0 then [Code(t[0])] + Read(t[1..])
    else [Front(t)] + Read(From(t, HiddenLength(t)))
  }

  lemma CodeFits(t: Text)
    requires t != [] && HiddenLength(t) == 0
    ensures Fits(Code(t[0]), t[1..])
  {
    var rest := t[1..];
    if t[0] == LETTER_R && OpensRaw(rest) {
      var n: nat :| n < |rest| && rest[n] == DQUOTE && forall k :: 0 <= k < n ==> rest[k] == HASH;
      HashRunIs(rest, n);
      assert false;
    }
    if t[0] == DQUOTE { QuotedFront(t); }
    if t[0] == SLASH && rest != [] {
      assert t[1] == rest[0];
    }
  }

  /** Every text is the text of a well-formed list of segments. */
  lemma {:induction false} EveryTextIsRead(t: Text)
    ensures WellFormed(Read(t)) && Print(Read(t)) == t
    decreases |t|
  {
    hide Fits, HiddenLength;
    if t != [] {
      if HiddenLength(t) == 0 {
        CodeFits(t);
        EveryTextIsRead(t[1..]);
        assert t == [t[0]] + t[1..];
        assert Read(t)[1..] == Read(t[1..]);
      } else {
        var rest := From(t, HiddenLength(t));
        HiddenFronts(t);
        EveryTextIsRead(rest);
        assert Read(t)[1..] == Read(rest);
      }
    }
  }

  /** So what the stripper leaves of any text is the code of its segments. */
  lemma StrippedIsReadCode(t: Text)
    ensures Stripped(t) == Codes(Read(t))
  {
    EveryTextIsRead(t);
    StrippedIsCode(Read(t));
  }

  // ------------------------------------------------------------------ source positions

  /** A character kept, with its place in the source. */
  datatype Mark = Mark(c: int, at: nat)

  /** The characters the stripper keeps of a text that starts at an offset. */
  ghost function Kept(t: Text, offset: nat): seq<Mark>
    decreases |t|
  {
    if t == [] then []
    else if HiddenLength(t) == 0 then [Mark(t[0], offset)] + Kept(t[1..], offset + 1)
    else Kept(From(t, HiddenLength(t)), offset + HiddenLength(t))
  }

  /** The code characters of segments that start at an offset. */
  ghost function CodeMarks(segments: seq<Segment>, offset: nat): seq<Mark> {
    if segments == [] then []
    else
      (if segments[0].Code? then [Mark(segments[0].c, offset)] else []) + CodeMarks(segments[1..], offset + |Write(segments[0])|)
  }

  /** A list of characters at strictly increasing places of a text. */
  ghost predicate Picked(marks: seq<Mark>, t: Text, offset: nat) {
    && (forall i :: 0 <= i < |marks| ==> offset <= marks[i].at < offset + |t| && t[marks[i].at - offset] == marks[i].c)
    && (forall i, j :: 0 <= i < j < |marks| ==> marks[i].at < marks[j].at)
  }

  lemma PickedOn(marks: seq<Mark>, t: Text, offset: nat, h: nat)
    requires h <= |t| && Picked(marks, t[h..], offset + h)
    ensures Picked(marks, t, offset)
    ensures h > 0 ==> Picked([Mark(t[0], offset)] + marks, t, offset)
  {
    forall i | 0 <= i < |marks| ensures offset <= marks[i].at < offset + |t| && t[marks[i].at - offset] == marks[i].c {
      assert t[h..][marks[i].at - offset - h] == t[marks[i].at - offset];
    }
  }

  /** Stripping is order-preserving erasure: what is left are characters of the text, at
      strictly increasing places. */
  lemma {:induction false} KeptInOrder(t: Text, offset: nat)
    ensures Picked(Kept(t, offset), t, offset)
    ensures Map(Kept(t, offset), (m: Mark) => m.c) == Stripped(t)
    decreases |t|
  {
    hide HiddenLength, Picked, Kept, Stripped;
    KeptUnfolds(t, offset);
    PickedNothing(t, offset);
    if t != [] {
      var h := HiddenLength(t);
      if h == 0 {
        KeptInOrder(t[1..], offset + 1);
        PickedOn(Kept(t[1..], offset + 1), t, offset, 1);
        var rest := Kept(t[1..], offset + 1);
        assert Map([Mark(t[0], offset)] + rest, (m: Mark) => m.c) == [t[0]] + Map(rest, (m: Mark) => m.c);
      } else {
        KeptInOrder(From(t, h), offset + h);
        if h <= |t| {
          PickedOn(Kept(From(t, h), offset + h), t, offset, h);
        } else {
          KeptUnfolds([], offset + h);
        }
      }
    }
  }

  lemma KeptUnfolds(t: Text, offset: nat)
    ensures t == [] ==> Kept(t, offset) == [] && Stripped(t) == []
    ensures t != [] && HiddenLength(t) == 0 ==>
              Kept(t, offset) == [Mark(t[0], offset)] + Kept(t[1..], offset + 1) && Stripped(t) == [t[0]] + Stripped(t[1..])
    ensures t != [] && HiddenLength(t) > 0 ==>
              Kept(t, offset) == Kept(From(t, HiddenLength(t)), offset + HiddenLength(t)) &&
              Stripped(t) == Stripped(From(t, HiddenLength(t)))
  {
    hide HiddenLength;
  }

  lemma PickedNothing(t: Text, offset: nat)
    ensures Picked([], t, offset)
  {
  }

  lemma RecognisedKeeps(s: Segment, rest: Text, offset: nat)
    requires Recognised(s, rest)
    ensures Kept(Write(s) + rest, offset) == (if s.Code? then [Mark(s.c, offset)] else []) + Kept(rest, offset + |Write(s)|)
  {
    var t := Write(s) + rest;
    hide HiddenLength;
    if s.Code? {
      assert t[1..] == rest;
    } else if HiddenLength(t) == |Write(s)| {
      assert t[|Write(s)|..] == rest;
    }
  }

  lemma NothingKept(offset: nat)
    ensures Kept([], offset) == []
  {
  }

  /** The places kept are the places of the code segments. */
  lemma {:induction false} KeptIsCode(segments: seq<Segment>, offset: nat)
    requires WellFormed(segments)
    ensures Kept(Print(segments), offset) == CodeMarks(segments, offset)
    decreases |segments|
  {
    hide Fits, Recognised, Write, Kept;
    NothingKept(offset);
    if segments != [] {
      SegmentIsRecognised(segments[0], Print(segments[1..]));
      RecognisedKeeps(segments[0], Print(segments[1..]), offset);
      KeptIsCode(segments[1..], offset + |Write(segments[0])|);
    }
  }

  // ------------------------------------------------------------------ where Rust differs

  const QUOTE_LITERAL: Text := [QUOTE, DQUOTE, QUOTE]

  lemma {:induction false} OpenQuoteEnd(t: Text, j: nat)
    requires j <= |t| && forall k :: j <= k < |t| ==> t[k] != DQUOTE && t[k] != BACKSLASH
    ensures QuoteEnd(t, j) == |t|
    decreases |t| - j
  {
    if j < |t| { OpenQuoteEnd(t, j + 1); }
  }

  lemma OpenString(u: Text)
    requires u != [] && u[0] == DQUOTE && forall k :: 1 <= k < |u| ==> u[k] != DQUOTE && u[k] != BACKSLASH
    ensures Stripped(u) == []
  {
    OpenQuoteEnd(u, 1);
    assert From(u, |u|) == [] && Stripped([]) == [];
  }

  lemma FirstIsCode(t: Text)
    requires t != [] && t[0] == QUOTE
    ensures Stripped(t) == [QUOTE] + Stripped(t[1..])
  {
  }

  /** The character literal of a double quote opens a string: the code behind it is dropped,
      up to the next double quote or to the end. In Rust it is code. */
  lemma QuoteLiteralHidesCode(rest: Text)
    requires forall k :: 0 <= k < |rest| ==> rest[k] != DQUOTE && rest[k] != BACKSLASH
    ensures Stripped(QUOTE_LITERAL + rest) == [QUOTE]
  {
    hide Stripped;
    var t := QUOTE_LITERAL + rest;
    var u := [DQUOTE, QUOTE] + rest;
    assert t[1..] == u;
    FirstIsCode(t);
    OpenString(u);
  }

  const NESTED_OPENING: Text := [SLASH, STAR, SLASH, STAR, STAR, SLASH]

  lemma FirstEnd(t: Text, end: nat)
    requires 2 <= end && end + 1 < |t| && t[end] == STAR && t[end + 1] == SLASH
    requires forall k :: 2 <= k < end ==> !(t[k] == STAR && t[k + 1] == SLASH)
    ensures Find(t, BLOCK_END, 2) == end
  {
    hide Find;
    forall k | 2 <= k < end ensures !At(t, BLOCK_END, k) {
      assert t[k..k + 2][0] == t[k] && t[k..k + 2][1] == t[k + 1];
    }
    assert t[end..end + 2] == BLOCK_END;
    assert At(t, BLOCK_END, end);
  }

  lemma HiddenIsSkipped(t: Text)
    requires t != [] && HiddenLength(t) > 0
    ensures Stripped(t) == Stripped(From(t, HiddenLength(t)))
  {
    hide HiddenLength;
  }

  lemma CommentIsSkipped(t: Text, end: nat)
    requires |t| > 1 && t[0] == SLASH && t[1] == STAR && 2 <= end
    requires end + 1 < |t| && t[end] == STAR && t[end + 1] == SLASH && forall k :: 2 <= k < end ==> !(t[k] == STAR && t[k + 1] == SLASH)
    ensures Stripped(t) == Stripped(From(t, end + 2))
  {
    hide Find, Stripped, QuoteEnd, HashRun, RawEnd;
    FirstEnd(t, end);
    HiddenIsSkipped(t);
  }

  /** Two block comments are opened and one is closed, and the stripper takes what follows for
      code. In Rust block comments nest (The Rust Reference, "Comments"), so it is comment. */
  lemma NestedCommentEndsEarly(rest: Text)
    ensures Stripped(NESTED_OPENING + rest) == Stripped(rest)
  {
    hide Find, At, Stripped;
    var t := NESTED_OPENING + rest;
    CommentIsSkipped(t, 4);
    assert From(t, 6) == rest;
  }
}
