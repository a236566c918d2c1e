/** Identifiers with Unicode escapes, as the TypeScript lexer (scripts/frontend_imports.py)
    reads them. */
module Identifiers {
  import opened Text
  import opened JsStrings
  import opened LexerLines

  /** `_decode_identifier_escape`: the decoded character and the end of the escape. */
  function DecodeIdentifierEscape(text: Text, index: nat): (r: Option<(int, nat)>)
    ensures r.Some? ==> index < r.value.1 <= |text|
    ensures r.Some? ==> forall k :: index <= k < r.value.1 ==> text[k] != LF
  {
    if index + 2 >= |text| || text[index..index + 2] != [BACKSLASH, 117] then None
    else
      assert text[index] == text[index..index + 2][0] && text[index + 1] == text[index..index + 2][1];
      if text[index + 2] == LBRACE then
        var close := Find(text, RBRACE, index + 3);
        if close < 0 then None
        else
          var digits := text[index + 3..close];
          assert forall k :: index + 3 <= k < close ==> text[k] == digits[k - index - 3];
          if !(1 <= |digits| <= 6) || !AllHex(digits) || HexValue(digits) > 0x10FFFF then None
          else Some((HexValue(digits), close + 1))
      else if index + 6 > |text| then None
      else
        var digits := text[index + 2..index + 6];
        assert forall k :: index + 2 <= k < index + 6 ==> text[k] == digits[k - index - 2];
        if !AllHex(digits) then None else Some((HexValue(digits), index + 6))
  }

  predicate IdentifierStart(o: Setting, c: int) { o.alpha(c) || c == 95 || c == DOLLAR }

  predicate IdentifierPart(o: Setting, c: int) { o.alnum(c) || c == 95 || c == DOLLAR }

  predicate StartsIdentifier(o: Setting, text: Text, index: nat)
    requires index < |text|
  {
    IdentifierStart(o, text[index]) ||
    (DecodeIdentifierEscape(text, index).Some? && IdentifierStart(o, DecodeIdentifierEscape(text, index).value.0))
  }

  /** The identifier character at `i`, and where it ends, with a Unicode escape decoded. */
  function IdentifierUnit(text: Text, i: nat): (r: (int, nat))
    requires i < |text|
    ensures i < r.1 <= |text|
  {
    var d := DecodeIdentifierEscape(text, i);
    if d.Some? then d.value else (text[i], i + 1)
  }

  predicate ContinuesIdentifier(o: Setting, text: Text, index: nat)
    requires index < |text|
  {
    IdentifierPart(o, text[index]) ||
    (DecodeIdentifierEscape(text, index).Some? && IdentifierPart(o, DecodeIdentifierEscape(text, index).value.0))
  }

  /** `value` is spelled by identifier characters that fill `text[i..e]`. */
  predicate SpellsParts(o: Setting, text: Text, i: nat, e: nat, value: Text)
    requires i <= e <= |text|
    decreases e - i
  {
    if i == e then value == []
    else
      var (c, next) := IdentifierUnit(text, i);
      ContinuesIdentifier(o, text, i) && value != [] && value[0] == c && next <= e && SpellsParts(o, text, next, e, value[1..])
  }

  /** `text[i..e]` is one character that starts an identifier and others that continue it. */
  predicate SpellsIdentifier(o: Setting, text: Text, i: nat, e: nat, value: Text)
    requires i < e <= |text|
  {
    var (c, next) := IdentifierUnit(text, i);
    StartsIdentifier(o, text, i) && value != [] && value[0] == c && next <= e && SpellsParts(o, text, next, e, value[1..])
  }

  /** Where the identifier characters read from `i` on end. */
  function PartsEnd(o: Setting, text: Text, i: nat): (r: nat)
    requires i <= |text|
    ensures i <= r <= |text|
    decreases |text| - i
  {
    if i < |text| && ContinuesIdentifier(o, text, i) then PartsEnd(o, text, IdentifierUnit(text, i).1) else i
  }

  function PartsValue(o: Setting, text: Text, i: nat): Text
    requires i <= |text|
    decreases |text| - i
  {
    if i < |text| && ContinuesIdentifier(o, text, i) then
      [IdentifierUnit(text, i).0] + PartsValue(o, text, IdentifierUnit(text, i).1)
    else []
  }

  lemma EscapeNeedsBackslash(text: Text, index: nat)
    requires index < |text|
    ensures DecodeIdentifierEscape(text, index).Some? ==> text[index] == BACKSLASH
  {
    if index + 2 < |text| && text[index..index + 2] == [BACKSLASH, 117] {
      assert text[index] == text[index..index + 2][0];
    }
  }

  lemma IdentifierFirst(o: Setting, text: Text, i: nat)
    requires i < |text| && StartsIdentifier(o, text, i)
    ensures var (c, next) := IdentifierUnit(text, i); SpellsIdentifier(o, text, i, next, [c])
  {
    hide DecodeIdentifierEscape, IdentifierUnit;
    assert [IdentifierUnit(text, i).0][1..] == [];
  }

  /** Reading one more identifier character. */
  lemma IdentifierStep(o: Setting, text: Text, i: nat, e: nat, value: Text)
    requires i < e < |text| && SpellsIdentifier(o, text, i, e, value) && ContinuesIdentifier(o, text, e)
    ensures var (c, next) := IdentifierUnit(text, e); SpellsIdentifier(o, text, i, next, value + [c])
  {
    hide DecodeIdentifierEscape, IdentifierUnit, ContinuesIdentifier, StartsIdentifier;
    PartsStep(o, text, IdentifierUnit(text, i).1, e, value[1..]);
    assert (value + [IdentifierUnit(text, e).0])[1..] == value[1..] + [IdentifierUnit(text, e).0];
  }

  lemma {:induction false} PartsStep(o: Setting, text: Text, i: nat, e: nat, value: Text)
    requires i <= e < |text| && SpellsParts(o, text, i, e, value) && ContinuesIdentifier(o, text, e)
    ensures var (c, next) := IdentifierUnit(text, e); SpellsParts(o, text, i, next, value + [c])
    decreases e - i
  {
    hide DecodeIdentifierEscape, IdentifierUnit, ContinuesIdentifier;
    var (c, next) := IdentifierUnit(text, e);
    if i < e {
      PartsStep(o, text, IdentifierUnit(text, i).1, e, value[1..]);
      assert (value + [c])[1..] == value[1..] + [c];
    } else {
      assert (value + [c])[1..] == [];
    }
  }

  lemma {:induction false} PartsAre(o: Setting, text: Text, i: nat, e: nat, value: Text)
    requires i <= e <= |text| && SpellsParts(o, text, i, e, value) && (e < |text| ==> !ContinuesIdentifier(o, text, e))
    ensures PartsEnd(o, text, i) == e && PartsValue(o, text, i) == value
    decreases e - i
  {
    hide ContinuesIdentifier, IdentifierUnit;
    if i < e {
      PartsAre(o, text, IdentifierUnit(text, i).1, e, value[1..]);
      assert value == [value[0]] + value[1..];
    }
  }

  /** A longest identifier is decided by where it starts. */
  lemma SpelledIs(o: Setting, text: Text, i: nat, e: nat, value: Text)
    requires i < e <= |text| && SpellsIdentifier(o, text, i, e, value) && (e < |text| ==> !ContinuesIdentifier(o, text, e))
    ensures var (c, next) := IdentifierUnit(text, i); e == PartsEnd(o, text, next) && value == [c] + PartsValue(o, text, next)
  {
    hide ContinuesIdentifier, IdentifierUnit, StartsIdentifier;
    PartsAre(o, text, IdentifierUnit(text, i).1, e, value[1..]);
    assert value == [value[0]] + value[1..];
  }
}
