/** Expression trees over the constant subset, their printed tokens in any layout, and the
    proof that the flat-token evaluator computes what the trees mean. Precedences follow
    ECMA-262 (2023) sections 13.8, 13.13, 13.14 and 13.16. */
module ExprTree {
  import opened Text
  import opened Tokens
  import opened ConstEval

  datatype Op = CommaOp | NullishOp | OrOp | AndOp | PlusOp

  /** A tree keeps its own tokens, so that every layout and every span is covered. */
  datatype Expr =
    | StringLiteral(t: Token)
    | Number(digits: seq<Token>)
    | Word(t: Token, v: Value)
    | Variable(t: Token)
    | TemplateLiteral(t: Token, head: Text, parts: Parts)
    | Paren(open: Token, e: Expr, close: Token)
    | Binary(op: Op, l: Expr, ops: seq<Token>, r: Expr)
    | Conditional(c: Expr, question: Token, a: Expr, colon: Token, b: Expr)

  /** Interpolations of a template, each followed by cooked text. */
  datatype Parts = Done | Interpolation(e: Expr, cooked: Text, rest: Parts)

  function OpText(op: Op): (t: Text)
    ensures 1 <= |t| <= 2
  {
    match op
    case CommaOp => [COMMA]
    case NullishOp => NULLISH
    case OrOp => LOGICAL_OR
    case AndOp => LOGICAL_AND
    case PlusOp => [PLUS]
  }

  /** Binding strength: comma 0, conditional 1, `??` 2, `||` 3, `&&` 4, `+` 5, primaries 6. */
  function OpLevel(op: Op): nat {
    match op
    case CommaOp => 0
    case NullishOp => 2
    case OrOp => 3
    case AndOp => 4
    case PlusOp => 5
  }

  function Level(e: Expr): nat {
    match e
    case Binary(op, _, _, _) => OpLevel(op)
    case Conditional(_, _, _, _, _) => 1
    case _ => 6
  }

  /** The tokens outside template interpolations. */
  function Outer(e: Expr): (ts: seq<Token>)
    decreases e
  {
    match e
    case StringLiteral(t) => [t]
    case Number(digits) => digits
    case Word(t, _) => [t]
    case Variable(t) => [t]
    case TemplateLiteral(t, _, _) => [t]
    case Paren(open, inner, close) => [open] + Outer(inner) + [close]
    case Binary(_, l, ops, r) => Outer(l) + ops + Outer(r)
    case Conditional(c, question, a, colon, b) => Outer(c) + [question] + Outer(a) + [colon] + Outer(b)
  }

  /** The complete token list, as the lexer emits it. */
  function Printed(e: Expr): seq<Token>
    decreases e
  {
    match e
    case StringLiteral(t) => [t]
    case Number(digits) => digits
    case Word(t, _) => [t]
    case Variable(t) => [t]
    case TemplateLiteral(t, _, parts) => [t] + PrintedParts(parts)
    case Paren(open, inner, close) => [open] + Printed(inner) + [close]
    case Binary(_, l, ops, r) => Printed(l) + ops + Printed(r)
    case Conditional(c, question, a, colon, b) => Printed(c) + [question] + Printed(a) + [colon] + Printed(b)
  }

  function PrintedParts(parts: Parts): seq<Token>
    decreases parts
  {
    match parts
    case Done => []
    case Interpolation(e, _, rest) => Printed(e) + PrintedParts(rest)
  }

  predicate IsReserved(v: Text) {
    v == Lit("true") || v == Lit("false") || v == Lit("null") || v == Lit("as") || v == Lit("satisfies")
  }

  /** A digit or a decimal point, lexed as one punctuation token. */
  predicate Digit(py: Python, t: Token) {
    t.kind.Punctuation? && |t.value| == 1 &&
    (t.value[0] == DOT || (py.isDigit(t.value[0]) && (IsDigit(t.value[0]) || t.value[0] >= 128)))
  }

  /** The tokens spell the tree, operands bind at least as tightly as precedence asks, and
      templates carry the constant the lexer computed for them, if any. */
  predicate WellFormed(py: Python, e: Expr)
    decreases e
  {
    match e
    case StringLiteral(t) => t.kind.StringToken?
    case Number(digits) =>
      && digits != []
      && (forall i :: 0 <= i < |digits| ==> Digit(py, digits[i]))
      && Adjacent(digits) && IsNumeral(py, JoinValues(digits))
    case Word(t, v) =>
      t.kind.Identifier? &&
      ((t.value == Lit("true") && v == Bool(true)) || (t.value == Lit("false") && v == Bool(false)) || (t.value == Lit("null") && v == Null))
    case Variable(t) => t.kind.Identifier? && !IsReserved(t.value) && !AllDigits(py, t.value) && t.value != [DOT]
    case TemplateLiteral(t, head, parts) =>
      && WellFormedParts(py, parts) && ReadableParts(py, parts)
      && (forall i :: 0 <= i < |PrintedParts(parts)| ==> PrintedParts(parts)[i].start < t.end)
      && (if PartialParts(py, parts).Some? then t.kind.ConstantTemplate? && t.value == head + PartialParts(py, parts).value
          else t.kind.ComputedTemplate? && t.value == [])
    case Paren(open, inner, close) => IsPunct(open, OPEN) && IsPunct(close, CLOSE) && WellFormed(py, inner)
    case Binary(op, l, ops, r) =>
      && WellFormed(py, l) && WellFormed(py, r)
      && Level(l) >= OpLevel(op) && Level(r) > OpLevel(op)
      && |ops| == |OpText(op)| && PunctuatorAt(ops, 0, OpText(op))
    case Conditional(c, question, a, colon, b) =>
      && WellFormed(py, c) && WellFormed(py, a) && WellFormed(py, b)
      && Level(c) >= 2 && Level(a) >= 1 && Level(b) >= 1
      && IsPunct(question, QUESTION) && IsPunct(colon, COLON)
  }

  /** The question mark touches a leading decimal point: `c?.5:b`. The standard reads a
      conditional, because `?.` is no token before a digit (ECMA-262 (2023) section 12.8). */
  predicate Touches(question: Token, a: Expr) {
    Outer(a) != [] && IsPunct(Outer(a)[0], DOT) && question.end == Outer(a)[0].start
  }

  /** No question mark outside template interpolations touches a decimal point. */
  predicate Untouched(e: Expr)
    decreases e
  {
    match e
    case Paren(_, inner, _) => Untouched(inner)
    case Binary(_, l, _, r) => Untouched(l) && Untouched(r)
    case Conditional(c, question, a, _, b) => !Touches(question, a) && Untouched(c) && Untouched(a) && Untouched(b)
    case _ => true
  }

  lemma {:induction false} OuterIsNotEmpty(py: Python, e: Expr)
    requires WellFormed(py, e)
    ensures Outer(e) != []
    decreases e
  {
    match e
    case Binary(_, l, _, _) => OuterIsNotEmpty(py, l);
    case _ =>
  }

  predicate WellFormedParts(py: Python, parts: Parts)
    decreases parts
  {
    match parts
    case Done => true
    case Interpolation(e, _, rest) => WellFormed(py, e) && WellFormedParts(py, rest)
  }

  /** Interpolations that neither raise nor fail to convert: without this there is no
      template token, because lexing has raised. */
  predicate ReadableParts(py: Python, parts: Parts)
    decreases parts
  {
    match parts
    case Done => true
    case Interpolation(e, _, rest) =>
      var v := Partial(py, e);
      !v.Raises? && (v.Known? ==> JavascriptString(py, v.v).Some?) && ReadableParts(py, rest)
  }

  // ------------------------------------------------------------------ meanings

  function NumberValue(py: Python, digits: seq<Token>): Outcome { ReadNumeral(py, JoinValues(digits)) }

  /** Tree evaluation that gives up (Unknown) where an opaque identifier is needed, and
      raises where the code does. */
  function Partial(py: Python, e: Expr): Outcome
    decreases e
  {
    match e
    case StringLiteral(t) => Known(Str(t.value))
    case Number(digits) => NumberValue(py, digits)
    case Word(_, v) => Known(v)
    case Variable(_) => Unknown
    case TemplateLiteral(_, head, parts) =>
      var p := PartialParts(py, parts);
      if p.None? then Unknown else Known(Str(head + p.value))
    case Paren(_, inner, _) => Partial(py, inner)
    case Binary(op, l, _, r) => PartialBinary(py, op, Partial(py, l), Partial(py, r))
    case Conditional(c, _, a, _, b) =>
      var condition := Partial(py, c);
      if !condition.Known? then condition else if JavascriptTruthy(py, condition.v) then Partial(py, a) else Partial(py, b)
  }

  /** What the interpolations and pieces spell, when every interpolation is a constant. */
  function PartialParts(py: Python, parts: Parts): Option<Text>
    decreases parts
  {
    match parts
    case Done => Some([])
    case Interpolation(e, cooked, rest) =>
      var v, tail := Partial(py, e), PartialParts(py, rest);
      if !v.Known? || tail.None? || JavascriptString(py, v.v).None? then None
      else Some(JavascriptString(py, v.v).value + cooked + tail.value)
  }

  function PartialBinary(py: Python, op: Op, l: Outcome, r: Outcome): Outcome {
    match op
    case PlusOp => Plus(py, l, r)
    case CommaOp => if l.Known? then r else l
    case NullishOp => if l.Known? && l.v.Null? then r else l
    case OrOp => if l.Known? && !JavascriptTruthy(py, l.v) then r else l
    case AndOp => if l.Known? && JavascriptTruthy(py, l.v) then r else l
  }

  /** What an identifier may hold at run time. */
  datatype JsValue = Primitive(v: Value) | Undefined | Object(id: int)

  /** A run: values of the identifiers, and what numerals, sums and conversions are where
      the evaluator has no answer of its own. */
  datatype Run = Run(variables: Text -> JsValue, numeral: Text -> JsValue, add: (JsValue, JsValue) -> JsValue, str: JsValue -> Text)

  predicate Truthy(py: Python, x: JsValue) {
    match x
    case Primitive(v) => JavascriptTruthy(py, v)
    case Undefined => false
    case Object(_) => true
  }

  function RunString(py: Python, run: Run, x: JsValue): Text {
    if x.Primitive? && JavascriptString(py, x.v).Some? then JavascriptString(py, x.v).value else run.str(x)
  }

  /** The run-time value of a tree. */
  function Meaning(py: Python, e: Expr, run: Run): JsValue
    requires WellFormed(py, e)
    decreases e
  {
    match e
    case StringLiteral(t) => Primitive(Str(t.value))
    case Number(digits) =>
      var n := NumberValue(py, digits);
      if n.Known? then Primitive(n.v) else run.numeral(JoinValues(digits))
    case Word(_, v) => Primitive(v)
    case Variable(t) => run.variables(t.value)
    case TemplateLiteral(_, head, parts) => Primitive(Str(head + MeaningParts(py, parts, run)))
    case Paren(_, inner, _) => Meaning(py, inner, run)
    case Binary(op, l, _, r) => MeaningBinary(py, op, Meaning(py, l, run), Meaning(py, r, run), run)
    case Conditional(c, _, a, _, b) => if Truthy(py, Meaning(py, c, run)) then Meaning(py, a, run) else Meaning(py, b, run)
  }

  function MeaningParts(py: Python, parts: Parts, run: Run): Text
    requires WellFormedParts(py, parts)
    decreases parts
  {
    match parts
    case Done => []
    case Interpolation(e, cooked, rest) => RunString(py, run, Meaning(py, e, run)) + cooked + MeaningParts(py, rest, run)
  }

  function MeaningBinary(py: Python, op: Op, l: JsValue, r: JsValue, run: Run): JsValue {
    match op
    case CommaOp => r
    case NullishOp => if l == Primitive(Null) || l == Undefined then r else l
    case OrOp => if Truthy(py, l) then l else r
    case AndOp => if Truthy(py, l) then r else l
    case PlusOp => if l.Primitive? && r.Primitive? && Add(py, l.v, r.v).Known? then Primitive(Add(py, l.v, r.v).v) else run.add(l, r)
  }

  /** Partial evaluation is sound: a known constant is the tree's value in every run. */
  lemma {:induction false} PartialIsSound(py: Python, e: Expr, run: Run)
    requires WellFormed(py, e) && Partial(py, e).Known?
    ensures Meaning(py, e, run) == Primitive(Partial(py, e).v)
    decreases e
  {
    match e
    case StringLiteral(_) | Number(_) | Word(_, _) =>
    case Variable(_) => assert false;
    case TemplateLiteral(_, _, parts) => PartsAreSound(py, parts, run);
    case Paren(_, inner, _) => PartialIsSound(py, inner, run);
    case Binary(_, l, _, r) =>
      PartialIsSound(py, l, run);
      if Partial(py, r).Known? { PartialIsSound(py, r, run); }
    case Conditional(c, _, a, _, b) =>
      PartialIsSound(py, c, run);
      if JavascriptTruthy(py, Partial(py, c).v) { PartialIsSound(py, a, run); } else { PartialIsSound(py, b, run); }
  }

  lemma {:induction false} PartsAreSound(py: Python, parts: Parts, run: Run)
    requires WellFormedParts(py, parts) && PartialParts(py, parts).Some?
    ensures MeaningParts(py, parts, run) == PartialParts(py, parts).value
    decreases parts
  {
    match parts
    case Done =>
    case Interpolation(e, _, rest) =>
      PartialIsSound(py, e, run);
      PartsAreSound(py, rest, run);
  }

  /** No identifiers but `true`, `false` and `null`. */
  predicate Closed(e: Expr)
    decreases e
  {
    match e
    case StringLiteral(_) | Number(_) | Word(_, _) => true
    case Variable(_) => false
    case TemplateLiteral(_, _, parts) => ClosedParts(parts)
    case Paren(_, inner, _) => Closed(inner)
    case Binary(_, l, _, r) => Closed(l) && Closed(r)
    case Conditional(c, _, a, _, b) => Closed(c) && Closed(a) && Closed(b)
  }

  predicate ClosedParts(parts: Parts)
    decreases parts
  {
    match parts
    case Done => true
    case Interpolation(e, _, rest) => Closed(e) && ClosedParts(rest)
  }

  /** Evaluation of an expression without identifiers never gives up: it is known, or it
      raises. */
  lemma {:induction false} ClosedIsKnown(py: Python, e: Expr)
    requires WellFormed(py, e) && Closed(e)
    ensures !Partial(py, e).Unknown?
    decreases e
  {
    match e
    case StringLiteral(_) | Word(_, _) | Number(_) =>
    case Variable(_) => assert false;
    case TemplateLiteral(_, _, parts) => ClosedPartsAreKnown(py, parts);
    case Paren(_, inner, _) => ClosedIsKnown(py, inner);
    case Binary(_, l, _, r) => ClosedIsKnown(py, l); ClosedIsKnown(py, r);
    case Conditional(c, _, a, _, b) => ClosedIsKnown(py, c); ClosedIsKnown(py, a); ClosedIsKnown(py, b);
  }

  lemma {:induction false} ClosedPartsAreKnown(py: Python, parts: Parts)
    requires WellFormedParts(py, parts) && ReadableParts(py, parts) && ClosedParts(parts)
    ensures PartialParts(py, parts).Some?
    decreases parts
  {
    match parts
    case Done =>
    case Interpolation(e, _, rest) => ClosedIsKnown(py, e); ClosedPartsAreKnown(py, rest);
  }

  /** Python as it is on ASCII: exact integers wherever it answers at all. */
  ghost predicate ReadsAscii(py: Python) {
    && AsciiDigits(py)
    && (forall t: Text {:trigger py.readInt(t)} ::
          (forall i :: 0 <= i < |t| ==> IsDigit(t[i])) && py.readInt(t).Some? ==> py.readInt(t).value == DecimalValue(t))
    && (forall n {:trigger py.spellInt(n)} :: py.spellInt(n).Some? ==> py.spellInt(n).value == Decimal(n))
  }

  /** An ASCII numeral without a point has its exact value, or raises. */
  lemma {:induction false} NumberIsExact(py: Python, digits: seq<Token>)
    requires ReadsAscii(py) && digits != []
    requires forall i :: 0 <= i < |digits| ==> |digits[i].value| == 1 && IsDigit(digits[i].value[0])
    ensures forall i :: 0 <= i < |JoinValues(digits)| ==> IsDigit(JoinValues(digits)[i])
    ensures NumberValue(py, digits) == Raises || NumberValue(py, digits) == Known(Int(DecimalValue(JoinValues(digits))))
  {
    JoinDigits(digits);
  }

  lemma {:induction false} JoinDigits(digits: seq<Token>)
    requires forall i :: 0 <= i < |digits| ==> |digits[i].value| == 1 && IsDigit(digits[i].value[0])
    ensures forall i :: 0 <= i < |JoinValues(digits)| ==> IsDigit(JoinValues(digits)[i])
  {
    if digits != [] { JoinDigits(digits[1..]); }
  }

  // ------------------------------------------------------------------ legacy octal numerals

  predicate OctalDigits(t: Text) { forall i :: 0 <= i < |t| ==> 48 <= t[i] <= 55 }

  function OctalValue(t: Text): nat
    requires OctalDigits(t)
  {
    if t == [] then 0 else 8 * OctalValue(t[..|t| - 1]) + (t[|t| - 1] - 48)
  }

  /** The number a numeral of decimal digits denotes: octal behind a leading zero, unless a digit
      is 8 or 9 (ECMA-262 (2023) section 12.9.3, legacy octal integer literals). */
  function StandardValue(t: Text): nat
    requires forall i :: 0 <= i < |t| ==> IsDigit(t[i])
  {
    if |t| > 1 && t[0] == 48 && OctalDigits(t) then OctalValue(t) else DecimalValue(t)
  }

  lemma {:induction false} OctalIsLess(t: Text)
    requires OctalDigits(t)
    ensures (forall i :: 0 <= i < |t| ==> IsDigit(t[i])) && OctalValue(t) <= DecimalValue(t)
    ensures OctalValue(t) == DecimalValue(t) <==> forall i :: 0 <= i < |t| - 1 ==> t[i] == 48
    ensures DecimalValue(t) == 0 <==> forall i :: 0 <= i < |t| ==> t[i] == 48
  {
    if t != [] {
      var init := t[..|t| - 1];
      assert forall i :: 0 <= i < |init| ==> init[i] == t[i];
      OctalIsLess(init);
      assert OctalValue(init) == DecimalValue(init) == 0 || OctalValue(t) < DecimalValue(t) by {
        OctalFalls(OctalValue(init), DecimalValue(init));
      }
    }
  }

  lemma OctalFalls(o: nat, d: nat)
    requires o <= d
    ensures 8 * o <= 10 * d && (8 * o == 10 * d ==> d == 0 && o == 0)
  {
  }

  /** Python's reading of a numeral is the standard's exactly when the numeral is no legacy
      octal, or is one with zeros before its last digit. */
  lemma DecimalIsStandardIff(t: Text)
    requires forall i :: 0 <= i < |t| ==> IsDigit(t[i])
    ensures DecimalValue(t) == StandardValue(t) <==>
              !(|t| > 1 && t[0] == 48 && OctalDigits(t)) || forall i :: 0 <= i < |t| - 1 ==> t[i] == 48
  {
    if |t| > 1 && t[0] == 48 && OctalDigits(t) { OctalIsLess(t); }
  }
}
