/** Expressions that the evaluator of scripts/frontend_imports.py misreads, because it takes a
    question mark that touches a decimal point for optional chaining. */
module ExprLimits {
  import opened Text
  import opened Tokens
  import opened ConstEval
  import opened ExprTree
  import opened ExprFlat
  import opened ExprEval

  /** The tokens of `true?.5:1`. */
  const LOST_TOKENS: seq<Token> := [
    Token(Identifier, Lit("true"), 1, 0, 4), Token(Punctuation, [QUESTION], 1, 4, 5), Token(Punctuation, [DOT], 1, 5, 6),
    Token(Punctuation, [53], 1, 6, 7), Token(Punctuation, [COLON], 1, 7, 8), Token(Punctuation, [49], 1, 8, 9)]

  /** A `?` that touches a numeral's leading point is taken for optional chaining, so the
      conditional is not seen and the expression is not evaluated. */
  lemma DotAfterQuestionIsLost(py: Python)
    requires AsciiDigits(py)
    ensures ConstantExpressionValue(py, LOST_TOKENS) == Unknown
  {
    hide Evaluate, Strip;
    DisjointStays(LOST_TOKENS, -1);
    LostIsBare();
    LostHasNoRoot(py);
  }

  lemma LostIsBare()
    ensures Strip(LOST_TOKENS) == LOST_TOKENS
  {
    hide Strip, AssertedAt;
    NoAssertionFrom(LOST_TOKENS, 0);
    StripUnfolds(LOST_TOKENS);
  }

  lemma LostHasNoRoot(py: Python)
    requires AsciiDigits(py)
    ensures Evaluate(py, LOST_TOKENS) == Unknown
  {
    hide LastOperator, ConditionalIndices, ConstantExpressionValue;
    var ts := LOST_TOKENS;
    NoOperator(ts, [COMMA]);
    NoOperator(ts, NULLISH);
    NoOperator(ts, LOGICAL_OR);
    NoOperator(ts, LOGICAL_AND);
    NoOperator(ts, [PLUS]);
    QuestionIsPassed();
    assert ts[0].value[0] == 't' as int && !py.isDigit(ts[0].value[0]);
  }

  lemma NoOperator(ts: seq<Token>, text: Text)
    requires text != []
    requires forall k :: 0 <= k < |ts| && IsPunct(ts[k], text[0]) ==> |text| > 1 && k + 1 < |ts| && !IsPunct(ts[k + 1], text[1])
    ensures LastOperator(ts, text).None?
  {
    forall j: nat ensures !OperatorAt(ts, j, text) {
      if OperatorAt(ts, j, text) {
        OperatorHead(ts, j, text);
        if |text| > 1 { OperatorSecond(ts, j, text); }
      }
    }
  }

  lemma OperatorSecond(ts: seq<Token>, j: nat, text: Text)
    requires OperatorAt(ts, j, text) && |text| > 1
    ensures j + 1 < |ts| && IsPunct(ts[j + 1], text[1])
  {
    assert IsPunct(ts[j + 1], text[j + 1 - j]);
  }

  lemma QuestionIsPassed()
    ensures ConditionalIndices(LOST_TOKENS).None?
  {
    hide TopLevel;
    var ts := LOST_TOKENS;
    forall k: nat | k < |ts| ensures TopLevel(ts, k) { OpsAtTopOf(ts, k); }
    assert PunctuatorAt(ts, 1, OPTIONAL);
    assert ConditionalFrom(ts, 5, None, 0) == None;
    assert ConditionalFrom(ts, 4, None, 0) == None;
    assert ConditionalFrom(ts, 3, None, 0) == None;
    assert ConditionalFrom(ts, 2, None, 0) == None;
    assert ConditionalFrom(ts, 1, None, 0) == None;
  }

  lemma OpsAtTopOf(ts: seq<Token>, k: nat)
    requires k < |ts| && forall i :: 0 <= i < |ts| ==> Plain(ts[i])
    ensures TopLevel(ts, k)
  {
    OpsAtTop(ts, k);
  }

  const TRUE_TOKEN: Token := Token(Identifier, Lit("true"), 1, 0, 4)
  const OR_TOKENS: seq<Token> := [Token(Punctuation, [BAR], 1, 4, 5), Token(Punctuation, [BAR], 1, 5, 6)]
  const X_TOKEN: Token := Token(Identifier, Lit("x"), 1, 6, 7)
  const TOUCHING_TOKEN: Token := Token(Punctuation, [QUESTION], 1, 7, 8)
  const HALF_TOKENS: seq<Token> := [Token(Punctuation, [DOT], 1, 8, 9), Token(Punctuation, [53], 1, 9, 10)]
  const COLON_TOKEN: Token := Token(Punctuation, [COLON], 1, 10, 11)
  const ONE_TOKENS: seq<Token> := [Token(Punctuation, [49], 1, 11, 12)]

  /** `true||x?.5:1`. */
  const TOUCHING: Expr := Conditional(
    Binary(OrOp, Word(TRUE_TOKEN, Bool(true)), OR_TOKENS, Variable(X_TOKEN)),
    TOUCHING_TOKEN, Number(HALF_TOKENS), COLON_TOKEN, Number(ONE_TOKENS))

  const TOUCHING_TOKENS: seq<Token> := [
    TRUE_TOKEN, OR_TOKENS[0], OR_TOKENS[1], X_TOKEN, TOUCHING_TOKEN, HALF_TOKENS[0], HALF_TOKENS[1], COLON_TOKEN, ONE_TOKENS[0]]

  /** Its value is .5 in every run, and the evaluator finds the constant `true`: only the
      hypothesis of `KnownConstantIsMeaning` on touching question marks fails. */
  lemma TouchingIsWrong(py: Python)
    requires AsciiDigits(py) && py.readFloat([DOT, 53]).Some?
    ensures WellFormed(py, TOUCHING) && LaidOut(Outer(TOUCHING)) && !Untouched(TOUCHING)
    ensures ConstantExpressionValue(py, Printed(TOUCHING)) == Known(Bool(true))
    ensures forall run :: Meaning(py, TOUCHING, run) == Primitive(Double(py.readFloat([DOT, 53]).value))
  {
    hide Evaluate, Strip, ConstantExpressionValue, WellFormed, Outer, Printed, LaidOut, Untouched, Meaning;
    TouchingIsWell(py);
    TouchingPrints();
    TouchingIsLaidOut();
    TouchingIsPlain();
    BareEvaluatesTo(py, TOUCHING_TOKENS);
    TouchingIsTrue(py);
    HalfIsWell(py);
    forall run ensures Meaning(py, TOUCHING, run) == Primitive(Double(py.readFloat([DOT, 53]).value)) { TouchingMeans(py, TOUCHING, run); }
  }

  lemma TouchingIsPlain()
    ensures forall k :: 0 <= k < |TOUCHING_TOKENS| ==>
              Plain(TOUCHING_TOKENS[k]) && !AssertionWord(TOUCHING_TOKENS[k]) && !IsPunct(TOUCHING_TOKENS[k], BANG)
  {
    assert Lit("true")[0] == 't' as int && Lit("x")[0] == 'x' as int;
  }

  lemma TouchingMeans(py: Python, e: Expr, run: Run)
    requires WellFormed(py, e) && e.Conditional? && e.c.Binary? && e.c.op == OrOp && e.c.l.Word? && e.c.l.v == Bool(true)
    requires e.a == Number(HALF_TOKENS) && JoinValues(HALF_TOKENS) == [DOT, 53] && py.readFloat([DOT, 53]).Some?
    ensures Meaning(py, e, run) == Primitive(Double(py.readFloat([DOT, 53]).value))
  {
    assert Meaning(py, e.c.l, run) == Primitive(Bool(true));
    assert NumberValue(py, HALF_TOKENS) == Known(Double(py.readFloat([DOT, 53]).value));
  }

  /** Tokens without brackets or assertions are evaluated as they stand. */
  lemma BareEvaluatesTo(py: Python, ts: seq<Token>)
    requires LaidOut(ts) && ts != [] && forall k :: 0 <= k < |ts| ==> Plain(ts[k]) && !AssertionWord(ts[k]) && !IsPunct(ts[k], BANG)
    ensures ConstantExpressionValue(py, ts) == Evaluate(py, ts)
  {
    hide Evaluate, Strip, AssertedAt, LaidOut;
    LaidOutStarts(ts);
    DisjointStays(ts, -1);
    NoAssertionFrom(ts, 0);
    StripUnfolds(ts);
  }

  lemma TouchingPrints()
    ensures Outer(TOUCHING) == TOUCHING_TOKENS && Printed(TOUCHING) == TOUCHING_TOKENS
  {
    assert Outer(TOUCHING.c.l) == [TRUE_TOKEN] && Outer(TOUCHING.c.r) == [X_TOKEN];
    assert Printed(TOUCHING.c.l) == [TRUE_TOKEN] && Printed(TOUCHING.c.r) == [X_TOKEN];
    assert Outer(TOUCHING.a) == HALF_TOKENS == Printed(TOUCHING.a);
    assert Outer(TOUCHING.b) == ONE_TOKENS == Printed(TOUCHING.b);
    assert Outer(TOUCHING.c) == [TRUE_TOKEN] + OR_TOKENS + [X_TOKEN] == Printed(TOUCHING.c);
  }

  lemma TouchingIsWell(py: Python)
    requires AsciiDigits(py)
    ensures WellFormed(py, TOUCHING) && LaidOut(Outer(TOUCHING)) && !Untouched(TOUCHING)
  {
    hide WellFormed, Outer, LaidOut, Touches;
    HalfIsWell(py);
    OneIsWell(py);
    OrIsWell(py);
    TouchingPrints();
    TouchingIsLaidOut();
    ConditionalIsWell(py, TOUCHING.c, TOUCHING_TOKEN, TOUCHING.a, COLON_TOKEN, TOUCHING.b);
    DotIsTouched(TOUCHING_TOKEN, TOUCHING.a);
  }

  lemma ConditionalIsWell(py: Python, c: Expr, question: Token, a: Expr, colon: Token, b: Expr)
    requires WellFormed(py, c) && WellFormed(py, a) && WellFormed(py, b) && Level(c) >= 2 && Level(a) >= 1 && Level(b) >= 1
    requires IsPunct(question, QUESTION) && IsPunct(colon, COLON)
    ensures WellFormed(py, Conditional(c, question, a, colon, b))
  {
  }

  lemma DotIsTouched(question: Token, a: Expr)
    requires a.Number? && a.digits != [] && IsPunct(a.digits[0], DOT) && question.end == a.digits[0].start
    ensures Touches(question, a)
  {
  }

  lemma TouchingIsLaidOut()
    ensures LaidOut(TOUCHING_TOKENS)
  {
  }

  lemma OrIsWell(py: Python)
    requires AsciiDigits(py)
    ensures WellFormed(py, TOUCHING.c)
  {
    assert Lit("x")[0] == 'x' as int && !py.isDigit(Lit("x")[0]);
    assert OR_TOKENS[0].end == OR_TOKENS[1].start;
  }

  lemma HalfIsWell(py: Python)
    requires AsciiDigits(py)
    ensures WellFormed(py, Number(HALF_TOKENS)) && JoinValues(HALF_TOKENS) == [DOT, 53]
  {
    assert HALF_TOKENS[1..][1..] == [] && JoinValues(HALF_TOKENS[1..]) == [53];
    assert [DOT, 53][1..] == [53] && [53][1..] == [];
    assert WithoutDots([53]) == [53] && WithoutDots([DOT, 53]) == [53];
  }

  lemma OneIsWell(py: Python)
    requires AsciiDigits(py)
    ensures WellFormed(py, Number(ONE_TOKENS))
  {
    assert ONE_TOKENS[1..] == [] && JoinValues(ONE_TOKENS) == [49];
    assert [49][1..] == [] && WithoutDots([49]) == [49];
  }

  lemma TouchingIsTrue(py: Python)
    ensures Evaluate(py, TOUCHING_TOKENS) == Known(Bool(true))
  {
    hide LastOperator, ConditionalIndices, ConstantExpressionValue, OperatorAt;
    var ts := TOUCHING_TOKENS;
    NoOperator(ts, [COMMA]);
    NoOperator(ts, NULLISH);
    TouchingHasNoConditional();
    OrIsLast();
    assert ts[..1] == [TRUE_TOKEN];
    TrueIsTrue(py);
  }

  lemma TrueIsTrue(py: Python)
    ensures ConstantExpressionValue(py, [TRUE_TOKEN]) == Known(Bool(true))
  {
    hide Evaluate, Strip;
    var e := Word(TRUE_TOKEN, Bool(true));
    assert LaidOut(Outer(e));
    OuterEvaluates(py, e);
  }

  lemma OrIsLast()
    ensures LastOperator(TOUCHING_TOKENS, LOGICAL_OR) == Some(1)
  {
    hide TopLevel;
    var ts := TOUCHING_TOKENS;
    forall k: nat | k < |ts| ensures TopLevel(ts, k) { OpsAtTopOf(ts, k); }
    assert OperatorAt(ts, 1, LOGICAL_OR);
    forall j: nat | j > 1 ensures !OperatorAt(ts, j, LOGICAL_OR) {
      if OperatorAt(ts, j, LOGICAL_OR) { OperatorSecond(ts, j, LOGICAL_OR); }
    }
  }

  lemma TouchingHasNoConditional()
    ensures ConditionalIndices(TOUCHING_TOKENS).None?
  {
    hide TopLevel;
    var ts := TOUCHING_TOKENS;
    forall k: nat | k < |ts| ensures TopLevel(ts, k) { OpsAtTopOf(ts, k); }
    assert PunctuatorAt(ts, 4, OPTIONAL);
    assert ConditionalFrom(ts, 8, None, 0) == None;
    QuietScan(ts, 5, 7, None, 0);
    assert ConditionalFrom(ts, 5, None, 0) == None;
    QuietScan(ts, 0, 4, None, 0);
  }
}
