/** The token-level constant evaluator (`_constant_expression_value` and its helpers in
    scripts/frontend_imports.py). It works on flat token lists, without a parse tree. */
module ConstEval {
  import opened Text
  import opened Tokens

  /** A constant. A double is a handle: what Python does with it is part of `Python`. */
  datatype Value = Null | Bool(b: bool) | Int(n: nat) | Double(id: int) | Str(s: Text)

  /** What the evaluator takes from the Python runtime. A reader or speller that answers
      None raises ValueError, an addition that answers None raises OverflowError. */
  datatype Python = Python(
    isDigit: int -> bool,
    readInt: Text -> Option<nat>,
    readFloat: Text -> Option<int>,
    spellInt: nat -> Option<Text>,
    spellFloat: int -> Text,
    isZero: int -> bool,
    addFloats: (Value, Value) -> Option<int>)

  /** `Unknown` is the source's unknown marker. */
  datatype Outcome = Unknown | Raises | Known(v: Value)

  const OPEN := 40
  const CLOSE := 41
  const PLUS := 43
  const COMMA := 44
  const COLON := 58
  const SEMICOLON := 59
  const EQUALS := 61
  const QUESTION := 63
  const BANG := 33
  const PERCENT := 37
  const AMPERSAND := 38
  const MINUS := 45
  const LBRACKET := 91
  const RBRACKET := 93
  const BAR := 124

  // ------------------------------------------------------------------ primitives

  /** `_javascript_string`; None when the conversion raises. */
  function JavascriptString(py: Python, v: Value): Option<Text> {
    match v
    case Null => Some(Lit("null"))
    case Bool(b) => Some(if b then Lit("true") else Lit("false"))
    case Int(n) => py.spellInt(n)
    case Double(id) => Some(py.spellFloat(id))
    case Str(s) => Some(s)
  }

  /** `_javascript_truthy`. */
  predicate JavascriptTruthy(py: Python, v: Value) {
    match v
    case Null => false
    case Bool(b) => b
    case Int(n) => n != 0
    case Double(id) => !py.isZero(id)
    case Str(s) => s != []
  }

  function ToNumber(v: Value): nat
    requires !v.Str? && !v.Double?
  {
    match v
    case Null => 0
    case Bool(b) => if b then 1 else 0
    case Int(n) => n
  }

  /** The `+` of two known values. */
  function Add(py: Python, l: Value, r: Value): (o: Outcome)
    ensures !o.Unknown?
  {
    if l.Str? || r.Str? then
      var a, b := JavascriptString(py, l), JavascriptString(py, r);
      if a.None? || b.None? then Raises else Known(Str(a.value + b.value))
    else if l.Double? || r.Double? then
      var sum := py.addFloats(l, r);
      if sum.None? then Raises else Known(Double(sum.value))
    else Known(Int(ToNumber(l) + ToNumber(r)))
  }

  function JoinValues(tokens: seq<Token>): Text {
    if tokens == [] then [] else tokens[0].value + JoinValues(tokens[1..])
  }

  /** The digits among the ASCII characters are 0 to 9. */
  ghost predicate AsciiDigits(py: Python) {
    forall c {:trigger py.isDigit(c)} :: 0 <= c < 128 ==> (py.isDigit(c) <==> IsDigit(c))
  }

  /** `str.isdigit()`. */
  predicate AllDigits(py: Python, t: Text) {
    t != [] && forall i :: 0 <= i < |t| ==> py.isDigit(t[i])
  }

  /** `value.replace(".", "")`. */
  function WithoutDots(t: Text): (r: Text)
    ensures |r| <= |t|
  {
    if t == [] then [] else (if t[0] == DOT then [] else [t[0]]) + WithoutDots(t[1..])
  }

  /** A numeral: digits with at most one dot. */
  predicate IsNumeral(py: Python, t: Text) {
    |t| - |WithoutDots(t)| <= 1 && AllDigits(py, WithoutDots(t))
  }

  /** `float(value) if "." in value else int(value)`. */
  function ReadNumeral(py: Python, t: Text): Outcome {
    if DOT in t then
      var d := py.readFloat(t);
      if d.None? then Raises else Known(Double(d.value))
    else
      var n := py.readInt(t);
      if n.None? then Raises else Known(Int(n.value))
  }

  /** The spans touch, left to right. */
  predicate Adjacent(tokens: seq<Token>) {
    forall i :: 0 < i < |tokens| ==> tokens[i - 1].end == tokens[i].start
  }

  /** Tokens that spell one numeral; string tokens are not told apart here. */
  predicate SpellsNumeral(py: Python, tokens: seq<Token>) {
    && tokens != []
    && (forall i :: 0 <= i < |tokens| ==> AllDigits(py, tokens[i].value) || tokens[i].value == [DOT])
    && Adjacent(tokens) && IsNumeral(py, JoinValues(tokens))
  }

  /** A single token that is a constant: a literal, or one of the three words. */
  function SingleConstant(tokens: seq<Token>): Option<Value> {
    if |tokens| != 1 then None
    else if tokens[0].kind.ConstantTemplate? || tokens[0].kind.StringToken? then Some(Str(tokens[0].value))
    else if !tokens[0].kind.Identifier? then None
    else if tokens[0].value == Lit("true") then Some(Bool(true))
    else if tokens[0].value == Lit("false") then Some(Bool(false))
    else if tokens[0].value == Lit("null") then Some(Null)
    else None
  }

  /** `_constant_primitive`. */
  function ConstantPrimitive(py: Python, tokens: seq<Token>): Outcome {
    var single := SingleConstant(tokens);
    if single.Some? then Known(single.value)
    else if SpellsNumeral(py, tokens) then ReadNumeral(py, JoinValues(tokens))
    else Unknown
  }

  // ------------------------------------------------------------------ nesting

  predicate Opening(v: Text) { v == [OPEN] || v == [LBRACKET] || v == [LBRACE] || v == [LESS] }

  predicate Closing(v: Text) { v == [CLOSE] || v == [RBRACKET] || v == [RBRACE] || v == [GREATER] }

  function OpenerOf(v: Text): Text
    requires Closing(v)
  {
    if v == [CLOSE] then [OPEN] else if v == [RBRACKET] then [LBRACKET] else if v == [RBRACE] then [LBRACE] else [LESS]
  }

  predicate Closes(stack: seq<Text>, v: Text) {
    Closing(v) && stack != [] && stack[|stack| - 1] == OpenerOf(v)
  }

  function NestStep(stack: seq<Text>, t: Token): seq<Text> {
    if !t.kind.Punctuation? then stack
    else if Opening(t.value) then stack + [t.value]
    else if Closes(stack, t.value) then stack[..|stack| - 1]
    else stack
  }

  /** The nesting stack after `tokens`, starting from `stack`. */
  function Nesting(stack: seq<Text>, tokens: seq<Token>): seq<Text> {
    if tokens == [] then stack
    else NestStep(Nesting(stack, tokens[..|tokens| - 1]), tokens[|tokens| - 1])
  }

  /** Whether a token met with this stack is listed as top level. */
  predicate Listed(stack: seq<Text>, t: Token) {
    stack == [] && (!t.kind.Punctuation? || !Opening(t.value))
  }

  predicate TopLevel(tokens: seq<Token>, i: nat)
    requires i < |tokens|
  {
    Listed(Nesting([], tokens[..i]), tokens[i])
  }

  /** `_constant_top_level_indices`. */
  method ConstantTopLevelIndices(tokens: seq<Token>) returns (indices: seq<nat>)
    ensures forall i: nat :: i in indices <==> i < |tokens| && TopLevel(tokens, i)
    ensures forall i, j :: 0 <= i < j < |indices| ==> indices[i] < indices[j]
  {
    indices := [];
    var nesting: seq<Text> := [];
    var index := 0;
    while index < |tokens|
      invariant 0 <= index <= |tokens|
      invariant nesting == Nesting([], tokens[..index])
      invariant forall i: nat :: i in indices <==> i < index && TopLevel(tokens, i)
      invariant forall i :: 0 <= i < |indices| ==> indices[i] < index
      invariant forall i, j :: 0 <= i < j < |indices| ==> indices[i] < indices[j]
    {
      var token := tokens[index];
      assert tokens[..index + 1][..index] == tokens[..index];
      if !token.kind.Punctuation? {
        if nesting == [] { indices := indices + [index]; }
      } else if Opening(token.value) {
        nesting := nesting + [token.value];
      } else if Closes(nesting, token.value) {
        nesting := nesting[..|nesting| - 1];
      } else if nesting == [] {
        indices := indices + [index];
      }
      index := index + 1;
    }
  }

  // ------------------------------------------------------------------ operators

  /** `_punctuator_at`: adjacent one-character punctuation tokens spelling `value`. */
  predicate PunctuatorAt(tokens: seq<Token>, index: int, value: Text) {
    && 0 <= index && index + |value| <= |tokens|
    && (forall k :: index <= k < index + |value| ==> IsPunct(tokens[k], value[k - index]))
    && (forall k :: index < k < index + |value| ==> tokens[k - 1].end == tokens[k].start)
  }

  predicate OperatorAt(tokens: seq<Token>, index: nat, value: Text) {
    && index + |value| <= |tokens|
    && (forall k :: index <= k < index + |value| ==> TopLevel(tokens, k))
    && PunctuatorAt(tokens, index, value)
  }

  /** `_last_top_level_punctuator`. */
  function LastOperatorBefore(tokens: seq<Token>, value: Text, bound: nat): (r: Option<nat>)
    ensures r.Some? ==> r.value < bound && OperatorAt(tokens, r.value, value)
    ensures forall j: nat :: j < bound && (r.Some? ==> j > r.value) ==> !OperatorAt(tokens, j, value)
  {
    if bound == 0 then None
    else if OperatorAt(tokens, bound - 1, value) then Some(bound - 1)
    else LastOperatorBefore(tokens, value, bound - 1)
  }

  function LastOperator(tokens: seq<Token>, value: Text): (r: Option<nat>)
    ensures r.Some? ==> OperatorAt(tokens, r.value, value)
    ensures forall j: nat :: (r.Some? ==> j > r.value) ==> !OperatorAt(tokens, j, value)
  {
    LastOperatorBefore(tokens, value, |tokens| + 1)
  }

  method LastTopLevelPunctuator(tokens: seq<Token>, value: Text) returns (r: Option<nat>)
    requires value != []
    ensures r == LastOperator(tokens, value)
  {
    var topLevel := ConstantTopLevelIndices(tokens);
    var index := |tokens| - |value|;
    while index > -1
      invariant -1 <= index || |tokens| < |value|
      invariant forall j: nat :: j > index ==> !OperatorAt(tokens, j, value)
    {
      var start: nat := index;
      if forall k: nat :: start <= k < start + |value| ==> k in topLevel {
        if PunctuatorAt(tokens, index, value) {
          assert OperatorAt(tokens, start, value);
          return Some(start);
        }
      } else {
        ghost var k: nat :| start <= k < start + |value| && k !in topLevel;
        assert !TopLevel(tokens, k);
      }
      assert !OperatorAt(tokens, start, value);
      index := index - 1;
    }
    return None;
  }

  const NULLISH: Text := [QUESTION, QUESTION]
  const OPTIONAL: Text := [QUESTION, DOT]
  const LOGICAL_OR: Text := [BAR, BAR]
  const LOGICAL_AND: Text := [AMPERSAND, AMPERSAND]

  /** A `?` that belongs to `??` or `?.`. */
  predicate PartOfLonger(tokens: seq<Token>, i: nat) {
    || PunctuatorAt(tokens, i - 1, NULLISH)
    || PunctuatorAt(tokens, i, NULLISH)
    || PunctuatorAt(tokens, i, OPTIONAL)
  }

  /** `_constant_conditional_indices` resumed at `i`. */
  function ConditionalFrom(tokens: seq<Token>, i: nat, question: Option<nat>, nested: nat): (r: Option<(nat, nat)>)
    requires i <= |tokens| && (question.Some? ==> question.value < i)
    ensures r.Some? ==> r.value.0 < r.value.1 < |tokens|
    decreases |tokens| - i
  {
    if i == |tokens| then None
    else if !TopLevel(tokens, i) then ConditionalFrom(tokens, i + 1, question, nested)
    else if IsPunct(tokens[i], QUESTION) then
      if PartOfLonger(tokens, i) then ConditionalFrom(tokens, i + 1, question, nested)
      else if question.None? then ConditionalFrom(tokens, i + 1, Some(i), nested)
      else ConditionalFrom(tokens, i + 1, question, nested + 1)
    else if IsPunct(tokens[i], COLON) && question.Some? then
      if nested > 0 then ConditionalFrom(tokens, i + 1, question, nested - 1)
      else Some((question.value, i))
    else ConditionalFrom(tokens, i + 1, question, nested)
  }

  function ConditionalIndices(tokens: seq<Token>): (r: Option<(nat, nat)>)
    ensures r.Some? ==> r.value.0 < r.value.1 < |tokens|
  {
    ConditionalFrom(tokens, 0, None, 0)
  }

  method ConstantConditionalIndices(tokens: seq<Token>) returns (r: Option<(nat, nat)>)
    ensures r == ConditionalIndices(tokens)
  {
    var topLevel := ConstantTopLevelIndices(tokens);
    var questionIndex: Option<nat> := None;
    var nested := 0;
    for index := 0 to |tokens|
      invariant questionIndex.Some? ==> questionIndex.value < index
      invariant nested >= 0
      invariant ConditionalFrom(tokens, index, questionIndex, nested) == ConditionalIndices(tokens)
    {
      if index !in topLevel { continue; }
      if IsPunct(tokens[index], QUESTION) {
        if PartOfLonger(tokens, index) { continue; }
        if questionIndex.None? {
          questionIndex := Some(index);
        } else {
          nested := nested + 1;
        }
      } else if IsPunct(tokens[index], COLON) && questionIndex.Some? {
        if nested > 0 {
          nested := nested - 1;
        } else {
          return Some((questionIndex.value, index));
        }
      }
    }
    return None;
  }

  // ------------------------------------------------------------------ transparent syntax

  datatype Pairs = Pairs(stack: seq<nat>, pairs: map<nat, nat>)

  /** `_matching_pairs` after the first `n` tokens. */
  function PairsUpTo(tokens: seq<Token>, opener: int, closer: int, n: nat): Pairs
    requires n <= |tokens|
  {
    if n == 0 then Pairs([], map[])
    else
      var p := PairsUpTo(tokens, opener, closer, n - 1);
      if IsPunct(tokens[n - 1], opener) then Pairs(p.stack + [n - 1], p.pairs)
      else if IsPunct(tokens[n - 1], closer) && p.stack != [] then
        Pairs(p.stack[..|p.stack| - 1], p.pairs[p.stack[|p.stack| - 1] := n - 1])
      else p
  }

  function PairsOf(tokens: seq<Token>, opener: int, closer: int): map<nat, nat> {
    PairsUpTo(tokens, opener, closer, |tokens|).pairs
  }

  method MatchingPairs(tokens: seq<Token>, opener: int, closer: int) returns (pairs: map<nat, nat>)
    ensures pairs == PairsOf(tokens, opener, closer)
  {
    var stack: seq<nat> := [];
    pairs := map[];
    for index := 0 to |tokens|
      invariant Pairs(stack, pairs) == PairsUpTo(tokens, opener, closer, index)
    {
      if IsPunct(tokens[index], opener) {
        stack := stack + [index];
      } else if IsPunct(tokens[index], closer) && stack != [] {
        pairs := pairs[stack[|stack| - 1] := index];
        stack := stack[..|stack| - 1];
      }
    }
  }

  /** `_type_argument_close` resumed at `cursor`. */
  function TypeCloseFrom(tokens: seq<Token>, open: nat, cursor: nat, depth: int): (r: Option<nat>)
    requires cursor <= |tokens|
    ensures r.Some? ==> cursor <= r.value < |tokens|
    decreases |tokens| - cursor
  {
    if cursor == |tokens| then None
    else if IsPunct(tokens[cursor], LESS) then TypeCloseFrom(tokens, open, cursor + 1, depth + 1)
    else if IsPunct(tokens[cursor], GREATER) then
      if cursor > open && tokens[cursor - 1].value == [EQUALS] then TypeCloseFrom(tokens, open, cursor + 1, depth)
      else if depth - 1 == 0 then Some(cursor)
      else TypeCloseFrom(tokens, open, cursor + 1, depth - 1)
    else TypeCloseFrom(tokens, open, cursor + 1, depth)
  }

  function TypeClose(tokens: seq<Token>, open: nat): (r: Option<nat>)
    ensures r.Some? ==> open < r.value < |tokens|
  {
    if open >= |tokens| || !IsPunct(tokens[open], LESS) then None
    else TypeCloseFrom(tokens, open, open, 0)
  }

  /** A `>` that closes an angle bracket: not the head of an arrow. */
  predicate AngleCloser(tokens: seq<Token>, open: nat, c: nat)
    requires c < |tokens|
  {
    IsPunct(tokens[c], GREATER) && !(c > open && tokens[c - 1].value == [EQUALS])
  }

  /** Angle brackets open before `i`, counted from `open` on. */
  function AngleDepth(tokens: seq<Token>, open: nat, i: nat): int
    requires open <= i <= |tokens|
  {
    if i == open then 0
    else
      AngleDepth(tokens, open, i - 1) +
      (if IsPunct(tokens[i - 1], LESS) then 1 else if AngleCloser(tokens, open, i - 1) then -1 else 0)
  }

  /** `c` is a closer that returns the depth to zero, and the first such. */
  predicate ClosesAngle(tokens: seq<Token>, open: nat, c: nat) {
    && open < c < |tokens| && IsPunct(tokens[open], LESS)
    && AngleCloser(tokens, open, c) && AngleDepth(tokens, open, c + 1) == 0
    && forall k :: open <= k < c && AngleCloser(tokens, open, k) ==> AngleDepth(tokens, open, k + 1) != 0
  }

  lemma {:induction false} TypeCloseFromIs(tokens: seq<Token>, open: nat, cursor: nat, c: nat)
    requires open <= cursor <= |tokens|
    ensures TypeCloseFrom(tokens, open, cursor, AngleDepth(tokens, open, cursor)) == Some(c) <==>
              && cursor <= c < |tokens| && AngleCloser(tokens, open, c) && AngleDepth(tokens, open, c + 1) == 0
              && forall k :: cursor <= k < c && AngleCloser(tokens, open, k) ==> AngleDepth(tokens, open, k + 1) != 0
    decreases |tokens| - cursor
  {
    if cursor < |tokens| {
      assert AngleDepth(tokens, open, cursor + 1) ==
               AngleDepth(tokens, open, cursor) +
               (if IsPunct(tokens[cursor], LESS) then 1 else if AngleCloser(tokens, open, cursor) then -1 else 0);
      TypeCloseFromIs(tokens, open, cursor + 1, c);
    }
  }

  /** The bracket found is the first non-arrow `>` that returns the angle depth to zero. */
  lemma TypeCloseIs(tokens: seq<Token>, open: nat, c: nat)
    ensures TypeClose(tokens, open) == Some(c) <==> ClosesAngle(tokens, open, c)
  {
    if open < |tokens| && IsPunct(tokens[open], LESS) {
      TypeCloseFromIs(tokens, open, open, c);
    }
  }

  method TypeArgumentClose(tokens: seq<Token>, open: nat) returns (r: Option<nat>)
    ensures r == TypeClose(tokens, open)
    ensures forall c: nat :: r == Some(c) <==> ClosesAngle(tokens, open, c)
  {
    forall c: nat ensures TypeClose(tokens, open) == Some(c) <==> ClosesAngle(tokens, open, c) { TypeCloseIs(tokens, open, c); }
    if open >= |tokens| || !IsPunct(tokens[open], LESS) { return None; }
    var depth := 0;
    for cursor := open to |tokens|
      invariant TypeCloseFrom(tokens, open, cursor, depth) == TypeClose(tokens, open)
    {
      if IsPunct(tokens[cursor], LESS) {
        depth := depth + 1;
      } else if IsPunct(tokens[cursor], GREATER) {
        if cursor > open && tokens[cursor - 1].value == [EQUALS] { continue; }
        depth := depth - 1;
        if depth == 0 { return Some(cursor); }
      }
    }
    return None;
  }

  predicate IsWord(t: Token, s: string) {
    t.kind.Identifier? && t.value == Lit(s)
  }

  /** A token that `_looks_like_assertion_type` refuses outside brackets. */
  predicate RuntimeContinuation(tokens: seq<Token>, i: nat, sawExtends: bool)
    requires i < |tokens|
  {
    var t := tokens[i];
    if IsWord(t, "extends") then false
    else if t.kind.Punctuation? && (t.value == [COMMA] || t.value == [SEMICOLON] || t.value == [PLUS] || t.value == [MINUS] ||
                                    t.value == [STAR] || t.value == [SLASH] || t.value == [PERCENT]) then true
    else if IsWord(t, "instanceof") then true
    else if IsPunct(t, EQUALS) && !(i + 1 < |tokens| && tokens[i + 1].value == [GREATER]) then true
    else if IsPunct(t, AMPERSAND) || IsPunct(t, BAR) || IsPunct(t, QUESTION) then
      (i + 1 < |tokens| && tokens[i + 1].value == t.value) || (t.value == [QUESTION] && !sawExtends)
    else IsWord(t, "in") || IsWord(t, "await") || IsWord(t, "delete") || IsWord(t, "throw") || IsWord(t, "yield")
  }

  /** Some top-level `extends` comes before `i`. */
  predicate ExtendsBefore(tokens: seq<Token>, i: nat)
    requires i <= |tokens|
  {
    exists k :: 0 <= k < i && TopLevel(tokens, k) && IsWord(tokens[k], "extends")
  }

  /** The tokens read as a type: brackets are closed at the end, and nothing at top level
      continues a run-time expression. */
  predicate AssertionType(tokens: seq<Token>) {
    && tokens != [] && Nesting([], tokens) == []
    && (forall i :: 0 <= i < |tokens| && TopLevel(tokens, i) ==> !RuntimeContinuation(tokens, i, ExtendsBefore(tokens, i)))
  }

  lemma TopLevelStep(tokens: seq<Token>, i: nat, nesting: seq<Text>)
    requires i < |tokens| && nesting == Nesting([], tokens[..i])
    ensures Nesting([], tokens[..i + 1]) == NestStep(nesting, tokens[i])
    ensures TopLevel(tokens, i) <==> nesting == [] && !(tokens[i].kind.Punctuation? && Opening(tokens[i].value))
  {
    assert tokens[..i + 1][..i] == tokens[..i];
  }

  /** `_looks_like_assertion_type`. */
  method LooksLikeAssertionType(tokens: seq<Token>) returns (r: bool)
    ensures r <==> AssertionType(tokens)
  {
    hide TopLevel, RuntimeContinuation, Opening, Closing, OpenerOf, Nesting;
    if tokens == [] { return false; }
    var nesting: seq<Text> := [];
    var sawExtends := false;
    NestingNothing(tokens);
    for index := 0 to |tokens|
      invariant nesting == Nesting([], tokens[..index])
      invariant sawExtends == ExtendsBefore(tokens, index)
      invariant forall i :: 0 <= i < index && TopLevel(tokens, i) ==> !RuntimeContinuation(tokens, i, ExtendsBefore(tokens, i))
    {
      var token := tokens[index];
      TopLevelStep(tokens, index, nesting);
      if token.kind.Punctuation? && Opening(token.value) {
        nesting := nesting + [token.value];
        continue;
      }
      if token.kind.Punctuation? && Closes(nesting, token.value) {
        nesting := nesting[..|nesting| - 1];
        continue;
      }
      if nesting != [] { continue; }
      if RuntimeContinuation(tokens, index, sawExtends) { return false; }
      if IsWord(token, "extends") { sawExtends := true; }
    }
    assert tokens[..|tokens|] == tokens;
    return nesting == [];
  }

  lemma NestingNothing(tokens: seq<Token>)
    ensures Nesting([], tokens[..0]) == []
  {
  }

  predicate Grouped(tokens: seq<Token>) {
    && |tokens| >= 2 && IsPunct(tokens[0], OPEN) && IsPunct(tokens[|tokens| - 1], CLOSE)
    && var pairs := PairsOf(tokens, OPEN, CLOSE); 0 in pairs && pairs[0] == |tokens| - 1
  }

  predicate AngleAsserted(tokens: seq<Token>) {
    && tokens != [] && IsPunct(tokens[0], LESS)
    && var close := TypeClose(tokens, 0);
       close.Some? && close.value + 1 < |tokens| && AssertionType(tokens[1..close.value])
  }

  predicate AssertedAt(tokens: seq<Token>, i: nat)
    requires i < |tokens|
  {
    TopLevel(tokens, i) && (IsWord(tokens[i], "as") || IsWord(tokens[i], "satisfies")) && i > 0 && AssertionType(tokens[i + 1..])
  }

  /** The first top-level `as` or `satisfies` at or after `i` that a type follows. */
  function FirstAssertion(tokens: seq<Token>, i: nat): (r: Option<nat>)
    requires i <= |tokens|
    ensures r.Some? ==> i <= r.value < |tokens| && AssertedAt(tokens, r.value)
    ensures r.None? ==> forall k :: i <= k < |tokens| ==> !AssertedAt(tokens, k)
    decreases |tokens| - i
  {
    if i == |tokens| then None
    else if AssertedAt(tokens, i) then Some(i)
    else FirstAssertion(tokens, i + 1)
  }

  /** One round of `_strip_constant_transparency`: the bounds of what is kept. */
  function StripStep(tokens: seq<Token>): (r: (nat, nat))
    requires tokens != []
    ensures r.0 <= r.1 <= |tokens|
  {
    if Grouped(tokens) then (1, |tokens| - 1)
    else if IsPunct(tokens[|tokens| - 1], BANG) then (0, |tokens| - 1)
    else if AngleAsserted(tokens) then (TypeClose(tokens, 0).value + 1, |tokens|)
    else
      var assertion := FirstAssertion(tokens, 0);
      if assertion.Some? then (0, assertion.value) else (0, |tokens|)
  }

  /** `_strip_constant_transparency`: the bounds kept in the end. */
  function StripBounds(tokens: seq<Token>): (r: (nat, nat))
    ensures r.0 <= r.1 <= |tokens|
    decreases |tokens|
  {
    if tokens == [] then (0, 0)
    else
      var (lo, hi) := StripStep(tokens);
      if lo == 0 && hi == |tokens| then (lo, hi)
      else var inner := StripBounds(tokens[lo..hi]); (lo + inner.0, lo + inner.1)
  }

  function Strip(tokens: seq<Token>): (r: seq<Token>)
    ensures |r| <= |tokens|
  {
    var (lo, hi) := StripBounds(tokens); tokens[lo..hi]
  }

  lemma SliceOfSlice<T>(s: seq<T>, lo: nat, hi: nat, a: nat, b: nat)
    requires lo <= hi <= |s| && a <= b <= hi - lo
    ensures s[lo..hi][a..b] == s[lo + a..lo + b]
  {
    var part := s[lo..hi];
    assert |part[a..b]| == b - a == |s[lo + a..lo + b]|;
    forall i | 0 <= i < b - a ensures part[a..b][i] == s[lo + a..lo + b][i] {
      assert part[a..b][i] == part[a + i] == s[lo + (a + i)];
    }
  }

  lemma StripUnfolds(tokens: seq<Token>)
    requires tokens != []
    ensures var (lo, hi) := StripStep(tokens);
            Strip(tokens) == if lo == 0 && hi == |tokens| then tokens else Strip(tokens[lo..hi])
  {
    var (lo, hi) := StripStep(tokens);
    var (a, b) := StripBounds(tokens[lo..hi]);
    SliceOfSlice(tokens, lo, hi, a, b);
    assert tokens[0..|tokens|] == tokens;
  }

  method StripConstantTransparency(tokens: seq<Token>) returns (r: seq<Token>)
    ensures r == Strip(tokens)
  {
    hide Strip, AssertionType, TypeClose, PairsOf, FirstAssertion;
    r := tokens;
    assert Strip([]) == [];
    while r != []
      invariant Strip(r) == Strip(tokens)
      decreases |r|
    {
      StripUnfolds(r);
      assert r[0..|r| - 1] == r[..|r| - 1];
      var pairs := MatchingPairs(r, OPEN, CLOSE);
      if |r| >= 2 && IsPunct(r[0], OPEN) && IsPunct(r[|r| - 1], CLOSE) && 0 in pairs && pairs[0] == |r| - 1 {
        r := r[1..|r| - 1];
        continue;
      }
      if IsPunct(r[|r| - 1], BANG) {
        r := r[..|r| - 1];
        continue;
      }
      if IsPunct(r[0], LESS) {
        var close := TypeArgumentClose(r, 0);
        if close.Some? && close.value + 1 < |r| {
          var looks := LooksLikeAssertionType(r[1..close.value]);
          if looks {
            assert r[close.value + 1..|r|] == r[close.value + 1..];
            r := r[close.value + 1..];
            continue;
          }
        }
      }
      var assertion := FirstAssertion(r, 0);
      if assertion.Some? {
        assert r[0..assertion.value] == r[..assertion.value];
        r := r[..assertion.value];
        continue;
      }
      break;
    }
  }

  // ------------------------------------------------------------------ evaluation

  /** `_constant_expression_value`. */
  function ConstantExpressionValue(py: Python, tokens: seq<Token>): Outcome
    decreases |tokens|, 2
  {
    Evaluate(py, Strip(Collapse(tokens)))
  }

  /** Evaluation of a token list already collapsed and stripped. */
  function Evaluate(py: Python, ts: seq<Token>): Outcome
    decreases |ts|, 1
  {
    if ts == [] then Unknown
    else
      var comma := LastOperator(ts, [COMMA]);
      if comma.Some? then
        var left := ConstantExpressionValue(py, ts[..comma.value]);
        if left.Known? then ConstantExpressionValue(py, ts[comma.value + 1..]) else left
      else
        var conditional := ConditionalIndices(ts);
        if conditional.Some? then
          var (question, colon) := conditional.value;
          var condition := ConstantExpressionValue(py, ts[..question]);
          if !condition.Known? then condition
          else if JavascriptTruthy(py, condition.v) then ConstantExpressionValue(py, ts[question + 1..colon])
          else ConstantExpressionValue(py, ts[colon + 1..])
        else EvaluateBinary(py, ts)
  }

  /** The `??`, `||`, `&&` and `+` splits. */
  function EvaluateBinary(py: Python, ts: seq<Token>): Outcome
    requires ts != []
    decreases |ts|, 0
  {
    var nullish := LastOperator(ts, NULLISH);
    if nullish.Some? then
      var left := ConstantExpressionValue(py, ts[..nullish.value]);
      if left == Known(Null) then ConstantExpressionValue(py, ts[nullish.value + 2..]) else left
    else
      var either := LastOperator(ts, LOGICAL_OR);
      if either.Some? then
        var left := ConstantExpressionValue(py, ts[..either.value]);
        if left.Known? && !JavascriptTruthy(py, left.v) then ConstantExpressionValue(py, ts[either.value + 2..]) else left
      else
        var both := LastOperator(ts, LOGICAL_AND);
        if both.Some? then
          var left := ConstantExpressionValue(py, ts[..both.value]);
          if left.Known? && JavascriptTruthy(py, left.v) then ConstantExpressionValue(py, ts[both.value + 2..]) else left
        else
          var plus := LastOperator(ts, [PLUS]);
          if plus.Some? then
            Plus(py, ConstantExpressionValue(py, ts[..plus.value]), ConstantExpressionValue(py, ts[plus.value + 1..]))
          else ConstantPrimitive(py, ts)
  }

  /** Both operands are evaluated before either is looked at. */
  function Plus(py: Python, l: Outcome, r: Outcome): Outcome {
    if l.Raises? || r.Raises? then Raises
    else if l.Unknown? || r.Unknown? then Unknown
    else Add(py, l.v, r.v)
  }

  // ------------------------------------------------------------------ when evaluation raises

  /** A step of an evaluation that Python may refuse. */
  datatype Step = Read(t: Text) | Join(l: Value, r: Value)

  predicate Refused(py: Python, s: Step) {
    match s
    case Read(t) => ReadNumeral(py, t).Raises?
    case Join(l, r) => Add(py, l, r).Raises?
  }

  /** The numerals read and the values joined on the way: what is not demanded is not looked at. */
  function Steps(py: Python, tokens: seq<Token>): set<Step>
    decreases |tokens|, 2
  {
    StepsOf(py, Strip(Collapse(tokens)))
  }

  function StepsOf(py: Python, ts: seq<Token>): set<Step>
    decreases |ts|, 1
  {
    if ts == [] then {}
    else
      var comma := LastOperator(ts, [COMMA]);
      if comma.Some? then
        Steps(py, ts[..comma.value]) +
        (if ConstantExpressionValue(py, ts[..comma.value]).Known? then Steps(py, ts[comma.value + 1..]) else {})
      else
        var conditional := ConditionalIndices(ts);
        if conditional.Some? then
          var (question, colon) := conditional.value;
          var condition := ConstantExpressionValue(py, ts[..question]);
          Steps(py, ts[..question]) +
          (if !condition.Known? then {}
           else if JavascriptTruthy(py, condition.v) then Steps(py, ts[question + 1..colon])
           else Steps(py, ts[colon + 1..]))
        else StepsOfBinary(py, ts)
  }

  function StepsOfBinary(py: Python, ts: seq<Token>): set<Step>
    requires ts != []
    decreases |ts|, 0
  {
    var nullish, either := LastOperator(ts, NULLISH), LastOperator(ts, LOGICAL_OR);
    var both, plus := LastOperator(ts, LOGICAL_AND), LastOperator(ts, [PLUS]);
    if nullish.Some? then
      var left := ConstantExpressionValue(py, ts[..nullish.value]);
      Steps(py, ts[..nullish.value]) + (if left == Known(Null) then Steps(py, ts[nullish.value + 2..]) else {})
    else if either.Some? then
      var left := ConstantExpressionValue(py, ts[..either.value]);
      Steps(py, ts[..either.value]) +
      (if left.Known? && !JavascriptTruthy(py, left.v) then Steps(py, ts[either.value + 2..]) else {})
    else if both.Some? then
      var left := ConstantExpressionValue(py, ts[..both.value]);
      Steps(py, ts[..both.value]) +
      (if left.Known? && JavascriptTruthy(py, left.v) then Steps(py, ts[both.value + 2..]) else {})
    else if plus.Some? then
      var left, right := ConstantExpressionValue(py, ts[..plus.value]), ConstantExpressionValue(py, ts[plus.value + 1..]);
      Steps(py, ts[..plus.value]) + Steps(py, ts[plus.value + 1..]) +
      (if left.Known? && right.Known? then {Join(left.v, right.v)} else {})
    else if SingleConstant(ts).None? && SpellsNumeral(py, ts) then {Read(JoinValues(ts))}
    else {}
  }

  ghost predicate AnyRefused(py: Python, steps: set<Step>) {
    exists s :: s in steps && Refused(py, s)
  }

  lemma AnyRefusedSum(py: Python, a: set<Step>, b: set<Step>)
    ensures AnyRefused(py, a + b) <==> AnyRefused(py, a) || AnyRefused(py, b)
    ensures !AnyRefused(py, {})
  {
    if AnyRefused(py, a) {
      var s :| s in a && Refused(py, s);
      assert s in a + b;
    }
    if AnyRefused(py, b) {
      var s :| s in b && Refused(py, s);
      assert s in a + b;
    }
  }

  lemma AnyRefusedOne(py: Python, s: Step)
    ensures AnyRefused(py, {s}) <==> Refused(py, s)
  {
    assert s in {s};
  }

  /** Evaluation raises exactly when Python refuses one of the demanded steps. */
  lemma {:induction false} RaisesIff(py: Python, tokens: seq<Token>)
    ensures ConstantExpressionValue(py, tokens).Raises? <==> AnyRefused(py, Steps(py, tokens))
    decreases |tokens|, 2
  {
    hide Evaluate, StepsOf, AnyRefused, Strip, Collapse;
    RaisesIffOf(py, Strip(Collapse(tokens)));
  }

  lemma {:induction false} RaisesIffOf(py: Python, ts: seq<Token>)
    ensures Evaluate(py, ts).Raises? <==> AnyRefused(py, StepsOf(py, ts))
    decreases |ts|, 1
  {
    hide EvaluateBinary, StepsOfBinary, AnyRefused, LastOperator, ConditionalIndices, ConstantExpressionValue, Steps;
    AnyRefusedSum(py, {}, {});
    if ts != [] {
      var comma, conditional := LastOperator(ts, [COMMA]), ConditionalIndices(ts);
      if comma.Some? {
        OperatorWithin(ts, [COMMA]);
        RaisesIff(py, ts[..comma.value]);
        RaisesIff(py, ts[comma.value + 1..]);
        AnyRefusedSum(py, Steps(py, ts[..comma.value]), Steps(py, ts[comma.value + 1..]));
        AnyRefusedSum(py, Steps(py, ts[..comma.value]), {});
      } else if conditional.Some? {
        ConditionalWithin(ts);
        var (question, colon) := conditional.value;
        var c, a, b := Steps(py, ts[..question]), Steps(py, ts[question + 1..colon]), Steps(py, ts[colon + 1..]);
        RaisesIff(py, ts[..question]);
        RaisesIff(py, ts[question + 1..colon]);
        RaisesIff(py, ts[colon + 1..]);
        AnyRefusedSum(py, c, a);
        AnyRefusedSum(py, c, b);
        AnyRefusedSum(py, c, {});
      } else {
        RaisesIffOfBinary(py, ts);
      }
    }
  }

  lemma OperatorWithin(ts: seq<Token>, text: Text)
    requires text != []
    ensures LastOperator(ts, text).Some? ==> LastOperator(ts, text).value + |text| <= |ts|
  {
  }

  lemma ConditionalWithin(ts: seq<Token>)
    ensures ConditionalIndices(ts).Some? ==> ConditionalIndices(ts).value.0 < ConditionalIndices(ts).value.1 < |ts|
  {
  }

  lemma {:induction false} RaisesIffOfBinary(py: Python, ts: seq<Token>)
    requires ts != []
    ensures EvaluateBinary(py, ts).Raises? <==> AnyRefused(py, StepsOfBinary(py, ts))
    decreases |ts|, 0
  {
    hide AnyRefused, LastOperator, ConstantExpressionValue, Steps, Refused, SpellsNumeral, SingleConstant, ReadNumeral, Add;
    OperatorWithin(ts, NULLISH);
    OperatorWithin(ts, LOGICAL_OR);
    OperatorWithin(ts, LOGICAL_AND);
    OperatorWithin(ts, [PLUS]);
    AnyRefusedSum(py, {}, {});
    var nullish, either := LastOperator(ts, NULLISH), LastOperator(ts, LOGICAL_OR);
    var both, plus := LastOperator(ts, LOGICAL_AND), LastOperator(ts, [PLUS]);
    if nullish.Some? {
      SidesRaise(py, ts, nullish.value, 2);
    } else if either.Some? {
      SidesRaise(py, ts, either.value, 2);
    } else if both.Some? {
      SidesRaise(py, ts, both.value, 2);
    } else if plus.Some? {
      SidesRaise(py, ts, plus.value, 1);
      PlusRaises(py, ts, plus.value);
    } else {
      AnyRefusedOne(py, Read(JoinValues(ts)));
      RefusedIs(py, Read(JoinValues(ts)));
    }
  }

  lemma RefusedIs(py: Python, s: Step)
    ensures Refused(py, s) <==> if s.Read? then ReadNumeral(py, s.t).Raises? else Add(py, s.l, s.r).Raises?
    ensures s.Read? ==> !ReadNumeral(py, s.t).Unknown?
  {
  }

  lemma {:induction false} SidesRaise(py: Python, ts: seq<Token>, k: nat, width: nat)
    requires 0 < width && k + width <= |ts|
    ensures ConstantExpressionValue(py, ts[..k]).Raises? <==> AnyRefused(py, Steps(py, ts[..k]))
    ensures ConstantExpressionValue(py, ts[k + width..]).Raises? <==> AnyRefused(py, Steps(py, ts[k + width..]))
    ensures AnyRefused(py, Steps(py, ts[..k]) + Steps(py, ts[k + width..])) <==>
              AnyRefused(py, Steps(py, ts[..k])) || AnyRefused(py, Steps(py, ts[k + width..]))
    ensures Steps(py, ts[..k]) + {} == Steps(py, ts[..k])
    decreases |ts| - 1, 3
  {
    hide AnyRefused, ConstantExpressionValue, Steps;
    RaisesIff(py, ts[..k]);
    RaisesIff(py, ts[k + width..]);
    AnyRefusedSum(py, Steps(py, ts[..k]), Steps(py, ts[k + width..]));
  }

  lemma PlusRaises(py: Python, ts: seq<Token>, k: nat)
    requires k < |ts|
    ensures var l, r := ConstantExpressionValue(py, ts[..k]), ConstantExpressionValue(py, ts[k + 1..]);
            var steps := Steps(py, ts[..k]) + Steps(py, ts[k + 1..]);
            && (l.Known? && r.Known? ==>
                  (AnyRefused(py, steps + {Join(l.v, r.v)}) <==> AnyRefused(py, steps) || Add(py, l.v, r.v).Raises?))
            && steps + {} == steps
  {
    hide AnyRefused, ConstantExpressionValue, Steps, Add;
    var l, r := ConstantExpressionValue(py, ts[..k]), ConstantExpressionValue(py, ts[k + 1..]);
    var steps := Steps(py, ts[..k]) + Steps(py, ts[k + 1..]);
    if l.Known? && r.Known? {
      AnyRefusedSum(py, steps, {Join(l.v, r.v)});
      AnyRefusedOne(py, Join(l.v, r.v));
    }
  }
}
