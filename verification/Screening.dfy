/** The file skip of `find_tailwind_merge_import_violations`
    (scripts/check_frontend_boundaries.py): files the prefilter refuses are never lexed. */
module Screening {
  import opened Text
  import opened JsStrings
  import opened Prefilter
  import opened Tokens
  import opened ConstEval
  import opened Assembly
  import opened LexerLines
  import opened AsciiSetting
  import opened Identifiers
  import opened LexerMachine
  import opened LexerSpec
  import opened Lexer
  import opened PrefilterLimits

  const TAILWIND_MERGE := Lit("tailwind-merge")

  /** `is_package_source`. */
  predicate IsPackageSource(source: Text, package: Text) {
    source == package || package + [SLASH] <= source
  }

  /** Some run of the file's tokens evaluates to a source inside `package`. */
  ghost predicate Requests(py: Python, tokens: seq<Token>, package: Text) {
    exists a, b :: 0 <= a <= b <= |tokens| && RequestsAt(py, tokens, a, b, package)
  }

  ghost predicate RequestsAt(py: Python, tokens: seq<Token>, a: nat, b: nat, package: Text)
    requires a <= b <= |tokens|
  {
    var v := ConstantExpressionValue(py, tokens[a..b]);
    v.Known? && v.v.Str? && IsPackageSource(v.v.s, package)
  }

  /** A refused file that can be lexed has no module request for the package, whatever the
      lexer's guesses. */
  method Screen(text: Text, o: Setting, package: Text) returns (lexIt: bool, tokens: seq<Token>, raised: bool)
    requires Sensible(o) && PrimitiveFree(o.py, package)
    ensures !raised ==> Lexed(o.py, text, tokens)
    ensures !raised && Requests(o.py, tokens, package) ==> lexIt
  {
    hide Result, RunOk, Tame, Convertible, PrimitiveFree, Lexed, SlowPathFinds;
    lexIt := CouldContainLiteralSequence(text, package);
    var lexer := new TypeScriptLexer(text, o);
    tokens, raised := lexer.Scan();
    if !raised && Requests(o.py, tokens, package) {
      RequestStartsWithPackage(o.py, tokens, package);
      PrefilterMissesNothing(o.py, text, tokens, package);
    }
  }

  lemma RequestStartsWithPackage(py: Python, tokens: seq<Token>, package: Text)
    requires Requests(py, tokens, package)
    ensures SlowPathFinds(py, tokens, package)
  {
    hide ConstantExpressionValue;
    var a, b :| 0 <= a <= b <= |tokens| && RequestsAt(py, tokens, a, b, package);
    assert RequestAt(py, tokens, a, b, package);
  }

  /** Python spells integers in decimal digits, and a float that some constant is as `inf`,
      as `nan` or with a digit in front. */
  ghost predicate SpellsNumbers(py: Python) {
    && (forall n {:trigger py.spellInt(n)} :: py.spellInt(n).Some? ==> py.spellInt(n).value == Decimal(n))
    && (forall id :: Producible(py, Double(id)) ==> SpellsFloat(py.spellFloat(id)))
  }

  predicate SpellsFloat(t: Text) { t == Lit("inf") || t == Lit("nan") || (t != [] && IsDigit(t[0])) }

  /** The package the repository screens for contains nothing a primitive can spell. */
  lemma TailwindMergeIsPrimitiveFree(py: Python)
    requires SpellsNumbers(py)
    ensures PrimitiveFree(py, TAILWIND_MERGE)
  {
    forall o: nat, v: Value | o < |TAILWIND_MERGE| && Stringifies(py, v)
      ensures !Agree(TAILWIND_MERGE[o..], JavascriptString(py, v).value)
    {
      var s :| SourceValue(py, s) == Known(v);
      ProducibleIsNoString(py, s);
      SpelledAway(py, v, o);
    }
  }

  /** How the package name goes on where a constant could begin. */
  lemma TailStarts(o: nat)
    requires o < |TAILWIND_MERGE|
    ensures var tail := TAILWIND_MERGE[o..];
            && tail != [] && !IsDigit(tail[0]) && tail[0] != 'f' as int
            && (tail[0] == 't' as int ==> |tail| > 1 && tail[1] == 'a' as int)
            && (tail[0] == 'n' as int ==> |tail| > 1 && tail[1] == 'd' as int)
            && (tail[0] == 'i' as int ==> |tail| > 2 && (tail[1] == 'l' as int || tail[2] == 'd' as int))
  {
    var tail := TAILWIND_MERGE[o..];
    assert tail[0] == TAILWIND_MERGE[o] && (|tail| > 1 ==> tail[1] == TAILWIND_MERGE[o + 1]) && (|tail| > 2 ==> tail[2] == TAILWIND_MERGE[o + 2]);
  }

  lemma Disagree(a: Text, b: Text, i: nat)
    requires i < |a| && i < |b| && a[i] != b[i]
    ensures !Agree(a, b)
  {
  }

  lemma SpelledAway(py: Python, v: Value, o: nat)
    requires SpellsNumbers(py) && Stringifies(py, v) && !v.Str? && o < |TAILWIND_MERGE|
    ensures !Agree(TAILWIND_MERGE[o..], JavascriptString(py, v).value)
  {
    hide Agree;
    var s, tail := JavascriptString(py, v).value, TAILWIND_MERGE[o..];
    TailStarts(o);
    if v.Int? {
      assert IsDigit(s[0]);
    } else if v.Double? {
      assert Producible(py, Double(v.id)) && SpellsFloat(s);
    }
    assert IsDigit(s[0]) || s in {Lit("null"), Lit("true"), Lit("false"), Lit("inf"), Lit("nan")};
    Disagree(tail, s, if tail[0] != s[0] then 0 else if tail[1] != s[1] then 1 else 2);
  }

  // ------------------------------------------------------------------ targets that are missed

  /** A float that overflows is spelled `inf`, so a request for `inferno` can be missed. */
  lemma InfernoIsNotPrimitiveFree(py: Python, numeral: Text)
    requires IsNumeral(py, numeral) && DOT in numeral && py.readFloat(numeral).Some?
    requires py.spellFloat(py.readFloat(numeral).value) == Lit("inf")
    ensures !PrimitiveFree(py, Lit("inferno"))
  {
    var v := Double(py.readFloat(numeral).value);
    assert SourceValue(py, Numeral(numeral)) == Known(v);
    assert Stringifies(py, v) && Lit("inferno")[0..] == Lit("inferno") && Lit("inf") <= Lit("inferno");
  }

  /** The text `""+1+""`. */
  const MISSED_TEXT: Text := [DQUOTE, DQUOTE, PLUS, 49, PLUS, DQUOTE, DQUOTE]

  /** The condition on the target is needed: lexed by any setting that knows ASCII, this text
      requests "1", which no quoted piece spells, and the prefilter refuses it. */
  method StringifiedNumberIsMissed(o: Setting) returns (accepted: bool, tokens: seq<Token>, raised: bool)
    requires Sensible(o) && Pythonic(o) && o.py.isDigit(49)
    requires o.py.readInt([49]) == Some(1) && o.py.spellInt(1) == Some([49])
    ensures !raised && SlowPathFinds(o.py, tokens, [49]) && !accepted
  {
    hide Result, RunOk, Tame, Convertible, Lexed, SlowPathFinds, SpellsPrefix, Sensible, Pythonic;
    OneIsMissed(o);
    accepted := CouldContainLiteralSequence(MISSED_TEXT, [49]);
    var lexer := new TypeScriptLexer(MISSED_TEXT, o);
    tokens, raised := lexer.Scan();
    if raised {
      ghost var i :| 0 <= i < |lexer.runs| && !Convertible(o.py, lexer.runs[i].tokens);
      NoRun(o, lexer.runs[i]);
    }
  }

  /** There is such a setting, and one whose numbers are spelled as Python spells them. */
  lemma AsciiIsPythonic()
    ensures Sensible(ASCII) && Pythonic(ASCII) && SpellsNumbers(ASCII.py)
    ensures ASCII.py.isDigit(49) && ASCII.py.readInt([49]) == Some(1) && ASCII.py.spellInt(1) == Some([49])
  {
    assert Decimal(1) == [49];
  }

  lemma NoRun(o: Setting, r: Run)
    ensures !RunOk(o, MISSED_TEXT, r)
  {
  }

  lemma OneIsMissed(o: Setting)
    requires Pythonic(o) && o.py.isDigit(49) && o.py.readInt([49]) == Some(1) && o.py.spellInt(1) == Some([49])
    ensures !SpellsPrefix(MISSED_TEXT, |MISSED_TEXT|, [49])
    ensures forall passed, tokens :: Result(o, MISSED_TEXT, passed, tokens) ==> SlowPathFinds(o.py, tokens, [49])
  {
    var s := Numeral([49]);
    assert WithoutDots([49]) == [49] by { assert [49][1..] == []; }
    assert SourceValue(o.py, s) == Known(Int(1));
    assert Stringifies(o.py, Int(1)) && [49][0..] == [49];
    assert Stands(o.py, [49], 0, s);
    RequestIsMissed(o, [49], 0, s);
    assert [49][..0] == [];
    assert MissedFile(o.py, [49], 0, s).text == MISSED_TEXT;
  }
}
