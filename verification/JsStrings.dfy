/** JavaScript string decoding (scripts/frontend_imports.py). Two decoders exist: a loop
    that cooks a complete raw literal, and a one-character step used by the prefilter. */
module JsStrings {
  import opened Text

  predicate IsHex(c: int) {
    48 <= c <= 57 || 65 <= c <= 70 || 97 <= c <= 102
  }

  predicate AllHex(s: Text) {
    forall i :: 0 <= i < |s| ==> IsHex(s[i])
  }

  function HexDigit(c: int): nat
    requires IsHex(c)
  {
    if c <= 57 then c - 48 else if c <= 70 then c - 55 else c - 87
  }

  function HexValue(s: Text): nat
    requires AllHex(s)
  {
    if s == [] then 0 else 16 * HexValue(s[..|s| - 1]) + HexDigit(s[|s| - 1])
  }

  /** Python's `str.find(c, start)` for one character: the first index, or -1. */
  function Find(s: Text, c: int, start: nat): (r: int)
    ensures r == -1 || (start <= r < |s| && s[r] == c)
    ensures forall k :: start <= k < |s| && (r == -1 || k < r) ==> s[k] != c
    decreases |s| - start
  {
    if start >= |s| then -1 else if s[start] == c then start else Find(s, c, start + 1)
  }

  /** `simple_escapes.get(escaped, escaped)`. */
  function SimpleEscape(c: int): int {
    if c == 98 then 8           // b
    else if c == 102 then 12    // f
    else if c == 110 then LF    // n
    else if c == 114 then CR    // r
    else if c == 116 then 9     // t
    else if c == 118 then 11    // v
    else if c == 48 then 0      // 0
    else c
  }

  datatype Decoded = Decoded(value: Option<int>, next: nat)

  /** The digits of a `\u{...}` escape whose brace opens at `index + 2`, when usable. */
  function BraceDigits(raw: Text, index: nat): Text
    requires index + 2 < |raw|
  {
    var close := Find(raw, RBRACE, index + 3);
    if close >= 0 then raw[index + 3..close] else []
  }

  predicate BraceEscape(raw: Text, index: nat)
    requires index + 2 < |raw|
  {
    var digits := BraceDigits(raw, index);
    digits != [] && AllHex(digits) && HexValue(digits) <= 0x10FFFF
  }

  /** `_decode_prefilter_character`: one decoded character (none for a line continuation). */
  function DecodeCharacter(raw: Text, index: nat): (d: Decoded)
    requires index < |raw|
    ensures index < d.next <= |raw|
  {
    if raw[index] != BACKSLASH || index + 1 >= |raw| then Decoded(Some(raw[index]), index + 1)
    else
      var escaped := raw[index + 1];
      if escaped == LF then Decoded(None, index + 2)
      else if escaped == CR then
        Decoded(None, if index + 2 < |raw| && raw[index + 2] == LF then index + 3 else index + 2)
      else if escaped == 120 && index + 3 < |raw| && AllHex(raw[index + 2..index + 4]) then
        Decoded(Some(HexValue(raw[index + 2..index + 4])), index + 4)
      else if escaped == 117 && index + 2 < |raw| && raw[index + 2] == LBRACE && BraceEscape(raw, index) then
        Decoded(Some(HexValue(BraceDigits(raw, index))), Find(raw, RBRACE, index + 3) + 1)
      else if escaped == 117 && index + 5 < |raw| && raw[index + 2] != LBRACE && AllHex(raw[index + 2..index + 6]) then
        Decoded(Some(HexValue(raw[index + 2..index + 6])), index + 6)
      else Decoded(Some(SimpleEscape(escaped)), index + 2)
  }

  function Units(value: Option<int>): Text {
    if value.None? then [] else [value.value]
  }

  /** The one-character decoder iterated from `index` to the end. */
  function Cook(raw: Text, index: nat): Text
    decreases |raw| - index
  {
    if index >= |raw| then []
    else var d := DecodeCharacter(raw, index); Units(d.value) + Cook(raw, d.next)
  }

  lemma CookStep(cooked: Text, raw: Text, index: nat)
    requires index < |raw|
    ensures var d := DecodeCharacter(raw, index);
            (cooked + Units(d.value)) + Cook(raw, d.next) == cooked + Cook(raw, index)
  {
  }

  /** `_decode_javascript_string`: the whole-literal decoder. It branches on its own and
      agrees with the iterated one-character decoder. */
  method DecodeJavascriptString(raw: Text) returns (cooked: Text)
    ensures cooked == Cook(raw, 0)
  {
    hide HexValue, Cook;
    cooked := [];
    var index := 0;
    while index < |raw|
      invariant 0 <= index <= |raw|
      invariant cooked + Cook(raw, index) == Cook(raw, 0)
    {
      CookStep(cooked, raw, index);
      ghost var d := DecodeCharacter(raw, index);
      ghost var after := cooked + Units(d.value);
      if raw[index] != BACKSLASH || index + 1 >= |raw| {
        cooked := cooked + [raw[index]];
        index := index + 1;
        assert cooked == after && index == d.next;
        continue;
      }
      var escaped := raw[index + 1];
      if escaped == LF {
        index := index + 2;
        assert cooked == after && index == d.next;
        continue;
      }
      if escaped == CR {
        index := index + if index + 2 < |raw| && raw[index + 2] == LF then 3 else 2;
        assert cooked == after && index == d.next;
        continue;
      }
      if escaped == 120 && index + 3 < |raw| {
        var digits := raw[index + 2..index + 4];
        if AllHex(digits) {
          cooked := cooked + [HexValue(digits)];
          index := index + 4;
          assert cooked == after && index == d.next;
          continue;
        }
      }
      if escaped == 117 {
        if index + 2 < |raw| && raw[index + 2] == LBRACE {
          var close := Find(raw, RBRACE, index + 3);
          var digits := if close >= 0 then raw[index + 3..close] else [];
          if digits != [] && AllHex(digits) {
            var value := HexValue(digits);
            if value <= 0x10FFFF {
              cooked := cooked + [value];
              index := close + 1;
              assert cooked == after && index == d.next;
              continue;
            }
          }
        } else if index + 5 < |raw| {
          var digits := raw[index + 2..index + 6];
          if AllHex(digits) {
            cooked := cooked + [HexValue(digits)];
            index := index + 6;
            assert cooked == after && index == d.next;
            continue;
          }
        }
      }
      cooked := cooked + [SimpleEscape(escaped)];
      index := index + 2;
      assert cooked == after && index == d.next;
    }
    CookDone(raw, index);
  }

  lemma CookDone(raw: Text, index: nat)
    requires index >= |raw|
    ensures Cook(raw, index) == []
  {
  }

  // ------------------------------------------------------------------ delimiters

  /** What ends a literal piece: its own quote, or a backtick or `${` for template text. */
  datatype Kind = Quoted(quote: int) | Template

  predicate AtDelimiter(text: Text, i: nat, kind: Kind)
    requires i < |text|
  {
    match kind
    case Quoted(q) => text[i] == q
    case Template => text[i] == BACKTICK || (text[i] == DOLLAR && i + 1 < |text| && text[i + 1] == LBRACE)
  }

  /** Delimiters are never a backslash, a line feed, a brace, a hex digit, `x` or `u`. */
  predicate ValidKind(kind: Kind) {
    kind.Quoted? ==> kind.quote == QUOTE || kind.quote == DQUOTE
  }

  /** Where the lexer stops: backslash pairs are skipped whole, then the delimiter ends it. */
  function RawEnd(text: Text, i: nat, kind: Kind): (e: nat)
    requires i <= |text|
    ensures i <= e <= |text|
    decreases |text| - i
  {
    if i == |text| then i
    else if text[i] == BACKSLASH && i + 1 < |text| then RawEnd(text, i + 2, kind)
    else if AtDelimiter(text, i, kind) then i
    else RawEnd(text, i + 1, kind)
  }

  /** The prefilter's view: decode in place until the delimiter. */
  function InPlace(text: Text, i: nat, kind: Kind): Text
    requires i <= |text|
    decreases |text| - i
  {
    if i == |text| || AtDelimiter(text, i, kind) then []
    else var d := DecodeCharacter(text, i); Units(d.value) + InPlace(text, d.next, kind)
  }

  /** Where that in-place decoding stops. */
  function InPlaceEnd(text: Text, i: nat, kind: Kind): (e: nat)
    requires i <= |text|
    ensures i <= e <= |text|
    decreases |text| - i
  {
    if i == |text| || AtDelimiter(text, i, kind) then i
    else InPlaceEnd(text, DecodeCharacter(text, i).next, kind)
  }

  lemma {:induction false} RawEndSkipsPlain(text: Text, i: nat, j: nat, kind: Kind)
    requires i <= j <= |text|
    requires forall k :: i <= k < j ==> text[k] != BACKSLASH && !AtDelimiter(text, k, kind)
    ensures RawEnd(text, i, kind) == RawEnd(text, j, kind)
    decreases j - i
  {
    if i < j { RawEndSkipsPlain(text, i + 1, j, kind); }
  }

  lemma FindPrefix(text: Text, c: int, start: nat, e: nat)
    requires e <= |text|
    ensures var whole := Find(text, c, start); var part := Find(text[..e], c, start);
            part == if 0 <= whole < e then whole else -1
  {
  }

  /** Decoding one character does not look past the delimiter, and the lexer's own scan
      passes through the position where that character ends. */
  lemma DecodeIsLocal(text: Text, i: nat, kind: Kind)
    requires i < |text| && ValidKind(kind) && !AtDelimiter(text, i, kind)
    ensures var d := DecodeCharacter(text, i); var e := RawEnd(text, i, kind);
            i < d.next <= e && RawEnd(text, d.next, kind) == e && DecodeCharacter(text[..e], i) == d
  {
    var e := RawEnd(text, i, kind);
    var d := DecodeCharacter(text, i);
    var part := text[..e];
    if text[i] != BACKSLASH || i + 1 >= |text| {
    } else {
      var escaped := text[i + 1];
      assert e == RawEnd(text, i + 2, kind);
      if escaped == LF {
      } else if escaped == CR {
        if i + 2 < |text| && text[i + 2] == LF { RawEndSkipsPlain(text, i + 2, i + 3, kind); }
      } else if escaped == 120 {
        DecodeHexIsLocal(text, i, kind);
      } else if escaped == 117 && i + 2 < |text| && text[i + 2] == LBRACE {
        DecodeBraceIsLocal(text, i, kind);
      } else if escaped == 117 {
        DecodeUnicodeIsLocal(text, i, kind);
      }
    }
  }

  lemma DecodeHexIsLocal(text: Text, i: nat, kind: Kind)
    requires i + 1 < |text| && ValidKind(kind) && text[i] == BACKSLASH && text[i + 1] == 120
    ensures var d := DecodeCharacter(text, i); var e := RawEnd(text, i, kind);
            i < d.next <= e && RawEnd(text, d.next, kind) == e && DecodeCharacter(text[..e], i) == d
  {
    var e := RawEnd(text, i, kind);
    var part := text[..e];
    if i + 3 < |text| && AllHex(text[i + 2..i + 4]) {
      var digits := text[i + 2..i + 4];
      assert digits[0] == text[i + 2] && digits[1] == text[i + 3];
      RawEndSkipsPlain(text, i + 2, i + 4, kind);
      assert part[i + 2..i + 4] == digits;
    } else if i + 3 < e {
      assert part[i + 2..i + 4] == text[i + 2..i + 4];
    }
  }

  lemma DecodeUnicodeIsLocal(text: Text, i: nat, kind: Kind)
    requires i + 1 < |text| && ValidKind(kind) && text[i] == BACKSLASH && text[i + 1] == 117
    requires i + 2 < |text| ==> text[i + 2] != LBRACE
    ensures var d := DecodeCharacter(text, i); var e := RawEnd(text, i, kind);
            i < d.next <= e && RawEnd(text, d.next, kind) == e && DecodeCharacter(text[..e], i) == d
  {
    var e := RawEnd(text, i, kind);
    var part := text[..e];
    if i + 5 < |text| && AllHex(text[i + 2..i + 6]) {
      var digits := text[i + 2..i + 6];
      assert forall k :: i + 2 <= k < i + 6 ==> text[k] == digits[k - i - 2];
      RawEndSkipsPlain(text, i + 2, i + 6, kind);
      assert part[i + 2..i + 6] == digits;
    } else if i + 5 < e {
      assert part[i + 2..i + 6] == text[i + 2..i + 6];
    }
  }

  lemma DecodeBraceIsLocal(text: Text, i: nat, kind: Kind)
    requires i + 2 < |text| && ValidKind(kind) && text[i] == BACKSLASH && text[i + 1] == 117 && text[i + 2] == LBRACE
    ensures var d := DecodeCharacter(text, i); var e := RawEnd(text, i, kind);
            i < d.next <= e && RawEnd(text, d.next, kind) == e && DecodeCharacter(text[..e], i) == d
  {
    hide BraceEscape, BraceDigits, HexValue, Find, AllHex, SimpleEscape;
    var e := RawEnd(text, i, kind);
    RawEndSkipsPlain(text, i + 2, i + 3, kind);
    BraceEscapeIsLocal(text, i, kind);
    assert e == RawEnd(text, i + 2, kind);
  }

  lemma BraceEscapeIsLocal(text: Text, i: nat, kind: Kind)
    requires i + 2 < |text| && ValidKind(kind) && text[i + 2] == LBRACE
    ensures var e := RawEnd(text, i + 3, kind); var close := Find(text, RBRACE, i + 3);
            BraceEscape(text, i) ==> close + 1 <= e && RawEnd(text, close + 1, kind) == e
    ensures var e := RawEnd(text, i + 3, kind);
            BraceEscape(text, i) == BraceEscape(text[..e], i)
    ensures var e := RawEnd(text, i + 3, kind);
            BraceEscape(text, i) ==>
              BraceDigits(text[..e], i) == BraceDigits(text, i) && Find(text[..e], RBRACE, i + 3) == Find(text, RBRACE, i + 3)
  {
    if BraceEscape(text, i) { BraceEscapeEnds(text, i, kind); }
    BraceDigitsPrefix(text, i, RawEnd(text, i + 3, kind));
  }

  lemma BraceEscapeEnds(text: Text, i: nat, kind: Kind)
    requires i + 2 < |text| && ValidKind(kind) && BraceEscape(text, i)
    ensures var e := RawEnd(text, i + 3, kind); var close := Find(text, RBRACE, i + 3);
            close + 1 <= e && RawEnd(text, close + 1, kind) == e
  {
    var close := Find(text, RBRACE, i + 3);
    var digits := BraceDigits(text, i);
    assert forall k :: i + 3 <= k < close ==> text[k] == digits[k - i - 3];
    RawEndSkipsPlain(text, i + 3, close + 1, kind);
  }

  lemma BraceDigitsPrefix(text: Text, i: nat, e: nat)
    requires i + 3 <= e <= |text|
    ensures var close := Find(text, RBRACE, i + 3);
            BraceDigits(text[..e], i) == (if 0 <= close < e then BraceDigits(text, i) else [])
    ensures var close := Find(text, RBRACE, i + 3);
            Find(text[..e], RBRACE, i + 3) == if 0 <= close < e then close else -1
  {
    FindPrefix(text, RBRACE, i + 3, e);
    var close := Find(text, RBRACE, i + 3);
    if 0 <= close < e { assert text[..e][i + 3..close] == text[i + 3..close]; }
  }

  /** Decoding inside a suffix is decoding in the whole, shifted. */
  lemma DecodeShift(text: Text, p: nat, i: nat)
    requires p <= i < |text|
    ensures var d := DecodeCharacter(text, i);
            DecodeCharacter(text[p..], i - p) == Decoded(d.value, d.next - p)
  {
    var part := text[p..];
    var k := i - p;
    if text[i] == BACKSLASH && i + 1 < |text| {
      var escaped := text[i + 1];
      if escaped == 120 {
        if i + 3 < |text| { assert part[k + 2..k + 4] == text[i + 2..i + 4]; }
      } else if escaped == 117 && i + 2 < |text| {
        if text[i + 2] == LBRACE {
          BraceShift(text, p, i);
        } else if i + 5 < |text| {
          assert part[k + 2..k + 6] == text[i + 2..i + 6];
        }
      }
    }
  }

  lemma BraceShift(text: Text, p: nat, i: nat)
    requires p <= i && i + 2 < |text|
    ensures BraceDigits(text[p..], i - p) == BraceDigits(text, i)
    ensures var close := Find(text, RBRACE, i + 3);
            Find(text[p..], RBRACE, i + 3 - p) == if close >= 0 then close - p else -1
  {
    FindShift(text, p, RBRACE, i + 3);
    var close := Find(text, RBRACE, i + 3);
    if close >= 0 { assert text[p..][i - p + 3..close - p] == text[i + 3..close]; }
  }

  lemma FindShift(text: Text, p: nat, c: int, start: nat)
    requires p <= start && p <= |text|
    ensures var whole := Find(text, c, start);
            Find(text[p..], c, start - p) == if whole >= 0 then whole - p else -1
  {
  }

  lemma DecodeInSlice(text: Text, p: nat, i: nat, kind: Kind)
    requires p <= i < |text| && ValidKind(kind) && !AtDelimiter(text, i, kind)
    ensures var d := DecodeCharacter(text, i); var e := RawEnd(text, i, kind);
            i < d.next <= e && RawEnd(text, d.next, kind) == e &&
            DecodeCharacter(text[p..e], i - p) == Decoded(d.value, d.next - p)
  {
    var e := RawEnd(text, i, kind);
    DecodeIsLocal(text, i, kind);
    DecodeShift(text[..e], p, i);
    assert text[..e][p..] == text[p..e];
  }

  lemma CookUnfolds(raw: Text, i: nat, value: Option<int>, next: nat)
    requires i < |raw| && DecodeCharacter(raw, i) == Decoded(value, next)
    ensures Cook(raw, i) == Units(value) + Cook(raw, next)
  {
    hide DecodeCharacter;
  }

  lemma InPlaceUnfolds(text: Text, i: nat, kind: Kind)
    requires i < |text| && !AtDelimiter(text, i, kind)
    ensures var d := DecodeCharacter(text, i);
            InPlaceEnd(text, i, kind) == InPlaceEnd(text, d.next, kind) &&
            InPlace(text, i, kind) == Units(d.value) + InPlace(text, d.next, kind)
  {
    hide DecodeCharacter;
  }

  lemma InPlaceStep(text: Text, p: nat, i: nat, e: nat, kind: Kind)
    requires p <= i < |text| && ValidKind(kind) && !AtDelimiter(text, i, kind)
    requires RawEnd(text, i, kind) == e
    ensures var d := DecodeCharacter(text, i);
            i < d.next <= e && RawEnd(text, d.next, kind) == e &&
            InPlaceEnd(text, i, kind) == InPlaceEnd(text, d.next, kind) &&
            InPlace(text, i, kind) == Units(d.value) + InPlace(text, d.next, kind) &&
            Cook(text[p..e], i - p) == Units(d.value) + Cook(text[p..e], d.next - p)
  {
    hide DecodeCharacter, Cook, InPlace, InPlaceEnd, RawEnd, AtDelimiter, Units;
    DecodeInSlice(text, p, i, kind);
    InPlaceUnfolds(text, i, kind);
    var d := DecodeCharacter(text, i);
    CookUnfolds(text[p..e], i - p, d.value, d.next - p);
  }

  /** The decoders agree in context: decoding in place inside the whole text yields exactly
      what the whole-literal decoder yields on the raw slice the lexer cuts out, and both
      stop at the same delimiter, whatever follows it. */
  lemma {:induction false} InPlaceIsCookedSlice(text: Text, p: nat, i: nat, e: nat, kind: Kind)
    requires p <= i <= |text| && ValidKind(kind)
    requires RawEnd(text, i, kind) == e
    ensures InPlaceEnd(text, i, kind) == e
    ensures InPlace(text, i, kind) == Cook(text[p..e], i - p)
    decreases |text| - i
  {
    hide DecodeCharacter;
    if i == |text| || AtDelimiter(text, i, kind) {
      assert e == i;
      assert Cook(text[p..e], i - p) == [];
    } else {
      InPlaceStep(text, p, i, e, kind);
      InPlaceIsCookedSlice(text, p, DecodeCharacter(text, i).next, e, kind);
    }
  }

  // ------------------------------------------------------------------ the standard's meaning

  const LINE_SEPARATOR := 0x2028
  const PARAGRAPH_SEPARATOR := 0x2029

  predicate LineTerminator(c: int) { c == LF || c == CR || c == LINE_SEPARATOR || c == PARAGRAPH_SEPARATOR }

  predicate OctalDigit(c: int) { 48 <= c <= 55 }

  /** One unit of the body of a quoted literal, ECMA-262 (2023) section 12.9.4. */
  datatype Unit =
    | Plain(c: int)
    | Continuation(breaks: Text)
    | HexEscape(digits: Text)
    | UnicodeEscape(digits: Text)
    | CodePointEscape(digits: Text)
    | OctalEscape(digits: Text)
    | CharacterEscape(c: int)

  function Spelling(u: Unit): (t: Text)
    requires u.OctalEscape? ==> u.digits != []
    ensures |t| > 0
  {
    match u
    case Plain(c) => [c]
    case Continuation(breaks) => [BACKSLASH] + breaks
    case HexEscape(digits) => [BACKSLASH, 120] + digits
    case UnicodeEscape(digits) => [BACKSLASH, 117] + digits
    case CodePointEscape(digits) => [BACKSLASH, 117, LBRACE] + digits + [RBRACE]
    case OctalEscape(digits) => [BACKSLASH] + digits
    case CharacterEscape(c) => [BACKSLASH, c]
  }

  predicate WellFormed(u: Unit) {
    match u
    case Plain(c) => c != BACKSLASH && c != LF && c != CR
    case Continuation(breaks) => breaks == [CR, LF] || (|breaks| == 1 && LineTerminator(breaks[0]))
    case HexEscape(digits) => |digits| == 2 && AllHex(digits)
    case UnicodeEscape(digits) => |digits| == 4 && AllHex(digits)
    case CodePointEscape(digits) => digits != [] && AllHex(digits) && HexValue(digits) <= 0x10FFFF
    case OctalEscape(digits) =>
      1 <= |digits| <= 3 && (forall i :: 0 <= i < |digits| ==> OctalDigit(digits[i])) && (|digits| == 3 ==> digits[0] <= 51)
    case CharacterEscape(c) => !LineTerminator(c) && c != 120 && c != 117 && !OctalDigit(c)
  }

  /** An octal escape takes as many digits as it can. */
  predicate Longest(u: Unit, rest: Text) {
    u.OctalEscape? && rest != [] && OctalDigit(rest[0]) ==> |u.digits| == 3 || (|u.digits| == 2 && u.digits[0] > 51)
  }

  function OctalValue(digits: Text): int {
    if digits == [] then 0 else 8 * OctalValue(digits[..|digits| - 1]) + (digits[|digits| - 1] - 48)
  }

  /** The UTF-16 code units of one code point. */
  function CodeUnits(c: int): (r: Text)
    ensures |r| > 0
  {
    if 0x10000 <= c <= 0x10FFFF then [0xD800 + (c - 0x10000) / 0x400, 0xDC00 + (c - 0x10000) % 0x400] else [c]
  }

  function AllUnits(t: Text): Text {
    if t == [] then [] else CodeUnits(t[0]) + AllUnits(t[1..])
  }

  /** `\b`, `\t`, `\n`, `\v`, `\f` and `\r`; any other character stands for itself. */
  function EscapeValue(c: int): Text {
    match c
    case 98 => [8]
    case 116 => [9]
    case 110 => [10]
    case 118 => [11]
    case 102 => [12]
    case 114 => [13]
    case _ => CodeUnits(c)
  }

  /** The string value of a unit, in UTF-16 code units. */
  function Meaning(u: Unit): Text {
    match u
    case Plain(c) => CodeUnits(c)
    case Continuation(_) => []
    case HexEscape(digits) => if AllHex(digits) then [HexValue(digits)] else []
    case UnicodeEscape(digits) => if AllHex(digits) then [HexValue(digits)] else []
    case CodePointEscape(digits) => if AllHex(digits) then CodeUnits(HexValue(digits)) else []
    case OctalEscape(digits) => [OctalValue(digits)]
    case CharacterEscape(c) => EscapeValue(c)
  }

  function SpellAll(us: seq<Unit>): Text
    requires forall i :: 0 <= i < |us| ==> us[i].OctalEscape? ==> us[i].digits != []
  {
    if us == [] then [] else Spelling(us[0]) + SpellAll(us[1..])
  }

  function MeanAll(us: seq<Unit>): Text {
    if us == [] then [] else Meaning(us[0]) + MeanAll(us[1..])
  }

  /** The body of a quoted literal. */
  predicate Body(us: seq<Unit>) {
    (forall i :: 0 <= i < |us| ==> WellFormed(us[i])) && (us != [] ==> Body(us[1..]) && Longest(us[0], SpellAll(us[1..])))
  }

  /** Units that the decoder reads as the standard does: no continuation by a line or
      paragraph separator, and of the octal escapes only a lone zero. */
  predicate Faithful(u: Unit) {
    && (u.Continuation? ==> u.breaks != [LINE_SEPARATOR] && u.breaks != [PARAGRAPH_SEPARATOR])
    && (u.OctalEscape? ==> u.digits == [48])
  }

  /** What the decoder makes of a unit. */
  function Reading(u: Unit): Text {
    match u
    case Plain(c) => [c]
    case Continuation(breaks) => if |breaks| == 1 && breaks[0] > CR then breaks else []
    case HexEscape(digits) => if AllHex(digits) then [HexValue(digits)] else []
    case UnicodeEscape(digits) => if AllHex(digits) then [HexValue(digits)] else []
    case CodePointEscape(digits) => if AllHex(digits) then [HexValue(digits)] else []
    case OctalEscape(digits) => if digits == [] then [] else [SimpleEscape(digits[0])] + digits[1..]
    case CharacterEscape(c) => [SimpleEscape(c)]
  }

  function ReadAll(us: seq<Unit>): Text {
    if us == [] then [] else Reading(us[0]) + ReadAll(us[1..])
  }

  lemma {:induction false} SpellingStarts(us: seq<Unit>)
    requires Body(us) && us != []
    ensures SpellAll(us)[0] != LF
  {
    assert WellFormed(us[0]);
  }

  lemma DecodeUnit(u: Unit, rest: Text)
    requires WellFormed(u) && !u.OctalEscape? && (rest != [] ==> rest[0] != LF)
    ensures var d := DecodeCharacter(Spelling(u) + rest, 0);
            Units(d.value) == Reading(u) && d.next == |Spelling(u)|
  {
    match u
    case HexEscape(digits) => DecodeHexUnit(digits, rest);
    case UnicodeEscape(digits) => DecodeUnicodeUnit(digits, rest);
    case CodePointEscape(digits) => DecodeCodePointUnit(digits, rest);
    case _ =>
  }

  lemma DecodeHexUnit(digits: Text, rest: Text)
    requires |digits| == 2 && AllHex(digits)
    ensures DecodeCharacter([BACKSLASH, 120] + digits + rest, 0) == Decoded(Some(HexValue(digits)), 4)
  {
    hide HexValue;
    assert ([BACKSLASH, 120] + digits + rest)[2..4] == digits;
  }

  lemma DecodeUnicodeUnit(digits: Text, rest: Text)
    requires |digits| == 4 && AllHex(digits)
    ensures DecodeCharacter([BACKSLASH, 117] + digits + rest, 0) == Decoded(Some(HexValue(digits)), 6)
  {
    hide HexValue;
    var raw := [BACKSLASH, 117] + digits + rest;
    assert raw[2..6] == digits && raw[2] == digits[0];
  }

  lemma DecodeCodePointUnit(digits: Text, rest: Text)
    requires digits != [] && AllHex(digits) && HexValue(digits) <= 0x10FFFF
    ensures DecodeCharacter([BACKSLASH, 117, LBRACE] + digits + [RBRACE] + rest, 0) == Decoded(Some(HexValue(digits)), |digits| + 4)
  {
    hide HexValue, SimpleEscape;
    var raw := [BACKSLASH, 117, LBRACE] + digits + [RBRACE] + rest;
    assert forall k :: 3 <= k < 3 + |digits| ==> raw[k] == digits[k - 3];
    assert raw[3 + |digits|] == RBRACE;
    assert Find(raw, RBRACE, 3) == 3 + |digits|;
    assert raw[3..3 + |digits|] == digits;
  }

  lemma {:induction false} CookShift(raw: Text, p: nat, i: nat)
    requires p <= i <= |raw|
    ensures Cook(raw, i) == Cook(raw[p..], i - p)
    decreases |raw| - i
  {
    hide DecodeCharacter;
    if i < |raw| {
      DecodeShift(raw, p, i);
      CookShift(raw, p, DecodeCharacter(raw, i).next);
    }
  }

  lemma CookFrom(front: Text, rest: Text)
    ensures Cook(front + rest, |front|) == Cook(rest, 0)
  {
    hide Cook;
    CookShift(front + rest, |front|, |front|);
    assert (front + rest)[|front|..] == rest;
  }

  /** Characters without a backslash cook to themselves. */
  lemma {:induction false} CookPlain(t: Text, rest: Text)
    requires forall i :: 0 <= i < |t| ==> t[i] != BACKSLASH
    ensures Cook(t + rest, 0) == t + Cook(rest, 0)
  {
    if t == [] {
      assert t + rest == rest && t + Cook(rest, 0) == Cook(rest, 0);
    } else {
      var tail := t[1..] + rest;
      assert t + rest == [t[0]] + tail;
      CookFrom([t[0]], tail);
      CookPlain(t[1..], rest);
      assert [t[0]] + (t[1..] + Cook(rest, 0)) == t + Cook(rest, 0);
    }
  }

  lemma OctalCooks(digits: Text, rest: Text)
    requires WellFormed(OctalEscape(digits))
    ensures Cook(Spelling(OctalEscape(digits)) + rest, 0) == Reading(OctalEscape(digits)) + Cook(rest, 0)
  {
    var raw, tail := [BACKSLASH] + digits + rest, digits[1..] + rest;
    assert raw == [BACKSLASH, digits[0]] + tail;
    assert DecodeCharacter(raw, 0) == Decoded(Some(SimpleEscape(digits[0])), 2);
    CookFrom([BACKSLASH, digits[0]], tail);
    CookPlain(digits[1..], rest);
    assert [SimpleEscape(digits[0])] + (digits[1..] + Cook(rest, 0)) == [SimpleEscape(digits[0])] + digits[1..] + Cook(rest, 0);
  }

  /** The decoder reads a body unit by unit. */
  lemma {:induction false} CookedMeaning(us: seq<Unit>)
    requires Body(us)
    ensures Cook(SpellAll(us), 0) == ReadAll(us)
  {
    hide DecodeCharacter, Reading, Spelling;
    if us != [] {
      var rest := SpellAll(us[1..]);
      assert WellFormed(us[0]);
      CookedMeaning(us[1..]);
      if us[0].OctalEscape? {
        OctalCooks(us[0].digits, rest);
      } else {
        if us[1..] != [] { SpellingStarts(us[1..]); }
        DecodeUnit(us[0], rest);
        CookFrom(Spelling(us[0]), rest);
      }
    }
  }

  lemma {:induction false} UnitsConcat(a: Text, b: Text)
    ensures AllUnits(a + b) == AllUnits(a) + AllUnits(b)
  {
    if a == [] {
      assert a + b == b;
    } else {
      assert (a + b)[1..] == a[1..] + b;
      UnitsConcat(a[1..], b);
    }
  }

  lemma UnitsOfOne(c: int)
    ensures AllUnits([c]) == CodeUnits(c)
  {
    assert [c][1..] == [];
    assert AllUnits([]) == [];
  }

  /** A unit is read at its own length or longer, and right exactly when it is faithful. */
  lemma ReadingIsRightIff(u: Unit)
    requires WellFormed(u)
    ensures |AllUnits(Reading(u))| >= |Meaning(u)|
    ensures AllUnits(Reading(u)) == Meaning(u) <==> Faithful(u)
  {
    match u
    case Plain(c) => UnitsOfOne(c);
    case Continuation(breaks) => if |breaks| == 1 { UnitsOfOne(breaks[0]); assert breaks == [breaks[0]]; }
    case HexEscape(digits) => FewHexDigits(digits); UnitsOfOne(HexValue(digits));
    case UnicodeEscape(digits) => FewHexDigits(digits); UnitsOfOne(HexValue(digits));
    case CodePointEscape(digits) => UnitsOfOne(HexValue(digits));
    case OctalEscape(digits) => OctalIsRightIff(digits);
    case CharacterEscape(c) => UnitsOfOne(SimpleEscape(c));
  }

  lemma FewHexDigits(digits: Text)
    requires AllHex(digits) && |digits| <= 4
    ensures HexValue(digits) < 0x10000
  {
    HexBound(digits);
  }

  lemma {:induction false} HexBound(digits: Text)
    requires AllHex(digits) && |digits| <= 4
    ensures HexValue(digits) <
              if |digits| == 0 then 1 else if |digits| == 1 then 16 else if |digits| == 2 then 256 else if |digits| == 3 then 4096 else 0x10000
  {
    if digits != [] { HexBound(digits[..|digits| - 1]); }
  }

  lemma OctalIsRightIff(digits: Text)
    requires WellFormed(OctalEscape(digits))
    ensures |AllUnits(Reading(OctalEscape(digits)))| == |digits|
    ensures AllUnits(Reading(OctalEscape(digits))) == Meaning(OctalEscape(digits)) <==> digits == [48]
  {
    var first, rest := SimpleEscape(digits[0]), digits[1..];
    UnitsConcat([first], rest);
    UnitsOfOne(first);
    SmallUnits(rest);
    if |digits| == 1 {
      assert digits == [digits[0]] && digits[..0] == [] && rest == [];
      assert OctalValue(digits) == digits[0] - 48;
    }
  }

  lemma {:induction false} SmallUnits(t: Text)
    requires forall i :: 0 <= i < |t| ==> OctalDigit(t[i])
    ensures AllUnits(t) == t
  {
    if t != [] { SmallUnits(t[1..]); }
  }

  /** The decoder gives the standard's value of a literal body, in UTF-16 code units, exactly
      when all its units are faithful. */
  lemma {:induction false} CookedIsStandardIff(us: seq<Unit>)
    requires Body(us)
    ensures |AllUnits(Cook(SpellAll(us), 0))| >= |MeanAll(us)|
    ensures AllUnits(Cook(SpellAll(us), 0)) == MeanAll(us) <==> forall i :: 0 <= i < |us| ==> Faithful(us[i])
  {
    hide Reading, Meaning, Spelling, Faithful, WellFormed, AllUnits, Cook;
    CookedMeaning(us);
    if us == [] {
      NoUnits();
    } else {
      var u, rest := us[0], us[1..];
      ReadingIsRightIff(u);
      CookedMeaning(rest);
      CookedIsStandardIff(rest);
      UnitsConcat(Reading(u), ReadAll(rest));
      SameConcat(AllUnits(Reading(u)), AllUnits(ReadAll(rest)), Meaning(u), MeanAll(rest));
      assert (forall i :: 0 <= i < |us| ==> Faithful(us[i])) <==> Faithful(u) && forall i :: 0 <= i < |rest| ==> Faithful(rest[i]) by {
        assert forall i :: 0 <= i < |rest| ==> rest[i] == us[i + 1];
        assert forall i :: 0 < i < |us| ==> us[i] == rest[i - 1];
      }
    }
  }

  lemma NoUnits()
    ensures AllUnits([]) == []
  {
  }

  /** Two lists of parts no shorter than their models are equal part by part or not at all. */
  lemma SameConcat(a: Text, b: Text, c: Text, d: Text)
    requires |a| >= |c| && |b| >= |d|
    ensures a + b == c + d <==> a == c && b == d
  {
    if a + b == c + d {
      assert |a| == |c|;
      assert (a + b)[..|a|] == a && (c + d)[..|a|] == c;
      assert (a + b)[|a|..] == b && (c + d)[|a|..] == d;
    }
  }

  lemma OneUnitBody(u: Unit)
    requires WellFormed(u)
    ensures Body([u])
  {
    assert [u][1..] == [];
  }

  /** A backslash before a line separator, and `\1`. */
  lemma UnfaithfulBodies()
    ensures Body([Continuation([LINE_SEPARATOR])]) && MeanAll([Continuation([LINE_SEPARATOR])]) == []
    ensures Cook([BACKSLASH, LINE_SEPARATOR], 0) == [LINE_SEPARATOR]
    ensures Body([OctalEscape([49])]) && MeanAll([OctalEscape([49])]) == [1]
    ensures Cook([BACKSLASH, 49], 0) == [49]
  {
    hide Body;
    var a, b := [Continuation([LINE_SEPARATOR])], [OctalEscape([49])];
    OneUnitBody(a[0]);
    OneUnitBody(b[0]);
    assert a[1..] == [] && b[1..] == [] && [49][..0] == [];
    assert Cook([BACKSLASH, LINE_SEPARATOR], 2) == [] && Cook([BACKSLASH, 49], 2) == [];
  }
}
