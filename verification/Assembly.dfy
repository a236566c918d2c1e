/** Where an evaluated constant comes from. Every string the slow path (lexer plus constant
    evaluator) can produce is assembled, in source order, from cooked literal pieces and
    stringified primitives; so the prefilter cannot miss it. */
module Assembly {
  import opened Text
  import opened JsStrings
  import opened Prefilter
  import opened Tokens
  import opened ConstEval

  /** An expression without strings that only adds constants. */
  datatype Source = NullWord | BoolWord(b: bool) | Numeral(t: Text) | Sum(l: Source, r: Source)

  function SourceValue(py: Python, s: Source): Outcome {
    match s
    case NullWord => Known(Null)
    case BoolWord(b) => Known(Bool(b))
    case Numeral(t) => if IsNumeral(py, t) then ReadNumeral(py, t) else Unknown
    case Sum(l, r) => Plus(py, SourceValue(py, l), SourceValue(py, r))
  }

  /** A constant other than a string that some expression has. */
  ghost predicate Producible(py: Python, v: Value) {
    exists s :: SourceValue(py, s) == Known(v)
  }

  lemma {:induction false} ProducibleIsNoString(py: Python, s: Source)
    ensures SourceValue(py, s).Known? ==> !SourceValue(py, s).v.Str?
  {
    match s
    case Sum(l, r) => ProducibleIsNoString(py, l); ProducibleIsNoString(py, r);
    case _ =>
  }

  lemma ProducibleSum(py: Python, l: Value, r: Value)
    requires Producible(py, l) && Producible(py, r) && Add(py, l, r).Known?
    ensures Producible(py, Add(py, l, r).v)
  {
    var a :| SourceValue(py, a) == Known(l);
    var b :| SourceValue(py, b) == Known(r);
    assert SourceValue(py, Sum(a, b)) == Add(py, l, r);
  }

  /** A literal piece of the text, by the position that opens it, or a stringified primitive. */
  datatype Part = Literal(at: nat) | Primitive(v: Value)

  ghost predicate Ordered(py: Python, text: Text, ps: seq<Part>, lo: int, hi: int) {
    && (forall i :: 0 <= i < |ps| ==> PartOk(py, text, ps[i], lo, hi))
    && (forall i, k :: 0 <= i < k < |ps| && ps[i].Literal? && ps[k].Literal? ==> ps[i].at < ps[k].at)
  }

  ghost predicate PartOk(py: Python, text: Text, p: Part, lo: int, hi: int) {
    match p
    case Literal(at) => lo <= at < hi && at < |text| && Opens(text[at])
    case Primitive(v) => Producible(py, v)
  }

  /** The part has a text: it lies in the source, or converts to a string. */
  predicate HasText(py: Python, text: Text, p: Part) {
    match p
    case Literal(at) => at < |text|
    case Primitive(v) => JavascriptString(py, v).Some?
  }

  function PartText(py: Python, text: Text, p: Part): Text
    requires HasText(py, text, p)
  {
    match p
    case Literal(at) => Piece(text, at)
    case Primitive(v) => JavascriptString(py, v).value
  }

  predicate InText(py: Python, text: Text, ps: seq<Part>) {
    forall i :: 0 <= i < |ps| ==> HasText(py, text, ps[i])
  }

  function Spelled(py: Python, text: Text, ps: seq<Part>): Text
    requires InText(py, text, ps)
  {
    if ps == [] then [] else Spelled(py, text, ps[..|ps| - 1]) + PartText(py, text, ps[|ps| - 1])
  }

  ghost predicate Assembled(py: Python, text: Text, lo: int, hi: int, s: Text) {
    exists ps :: Ordered(py, text, ps, lo, hi) && InText(py, text, ps) && Spelled(py, text, ps) == s
  }

  lemma {:induction false} SpelledConcat(py: Python, text: Text, a: seq<Part>, b: seq<Part>)
    requires InText(py, text, a) && InText(py, text, b)
    ensures InText(py, text, a + b) && Spelled(py, text, a + b) == Spelled(py, text, a) + Spelled(py, text, b)
  {
    hide PartText, Spelled;
    if b == [] {
      assert a + b == a && Spelled(py, text, []) == [] by { SpelledNone(py, text); }
    } else {
      var front, last := b[..|b| - 1], b[|b| - 1];
      SpelledConcat(py, text, a, front);
      SpelledLast(py, text, front, last);
      SpelledLast(py, text, a + front, last);
      assert b == front + [last] && a + b == (a + front) + [last];
    }
  }

  lemma SpelledNone(py: Python, text: Text)
    ensures Spelled(py, text, []) == []
  {
  }

  lemma SpelledLast(py: Python, text: Text, a: seq<Part>, p: Part)
    requires InText(py, text, a) && InText(py, text, [p])
    ensures HasText(py, text, p)
    ensures InText(py, text, a + [p]) && Spelled(py, text, a + [p]) == Spelled(py, text, a) + PartText(py, text, p)
  {
    assert [p][0] == p;
    assert (a + [p])[..|a|] == a;
  }

  lemma AssembledConcat(py: Python, text: Text, lo: int, mid: int, hi: int, s: Text, t: Text)
    requires lo <= mid <= hi && Assembled(py, text, lo, mid, s) && Assembled(py, text, mid, hi, t)
    ensures Assembled(py, text, lo, hi, s + t)
  {
    var a :| Ordered(py, text, a, lo, mid) && InText(py, text, a) && Spelled(py, text, a) == s;
    var b :| Ordered(py, text, b, mid, hi) && InText(py, text, b) && Spelled(py, text, b) == t;
    SpelledConcat(py, text, a, b);
    OrderedConcat(py, text, lo, mid, hi, a, b);
  }

  lemma OrderedConcat(py: Python, text: Text, lo: int, mid: int, hi: int, a: seq<Part>, b: seq<Part>)
    requires lo <= mid <= hi && Ordered(py, text, a, lo, mid) && Ordered(py, text, b, mid, hi)
    ensures Ordered(py, text, a + b, lo, hi)
  {
    var ab := a + b;
    forall i | 0 <= i < |ab| ensures PartOk(py, text, ab[i], lo, hi) {
      assert if i < |a| then PartOk(py, text, a[i], lo, mid) else PartOk(py, text, b[i - |a|], mid, hi);
    }
    forall i, k | 0 <= i < k < |ab| && ab[i].Literal? && ab[k].Literal? ensures ab[i].at < ab[k].at {
      if i < |a| <= k {
        assert PartOk(py, text, a[i], lo, mid) && PartOk(py, text, b[k - |a|], mid, hi);
      }
    }
  }

  lemma AssembledWiden(py: Python, text: Text, lo: int, hi: int, lo': int, hi': int, s: Text)
    requires lo' <= lo && hi <= hi' && Assembled(py, text, lo, hi, s)
    ensures Assembled(py, text, lo', hi', s)
  {
    var a :| Ordered(py, text, a, lo, hi) && InText(py, text, a) && Spelled(py, text, a) == s;
    forall i | 0 <= i < |a| ensures PartOk(py, text, a[i], lo', hi') {
      assert PartOk(py, text, a[i], lo, hi);
    }
    assert Ordered(py, text, a, lo', hi');
  }

  lemma AssembledPrimitive(py: Python, text: Text, lo: int, hi: int, v: Value)
    requires Producible(py, v) && JavascriptString(py, v).Some?
    ensures Assembled(py, text, lo, hi, JavascriptString(py, v).value)
  {
    var ps := [Primitive(v)];
    assert ps[..0] == [];
    assert Spelled(py, text, ps) == Spelled(py, text, ps[..0]) + JavascriptString(py, v).value;
    assert Ordered(py, text, ps, lo, hi) && InText(py, text, ps);
  }

  lemma AssembledEmpty(py: Python, text: Text, lo: int, hi: int)
    ensures Assembled(py, text, lo, hi, [])
  {
    assert Ordered(py, text, [], lo, hi) && InText(py, text, []) && Spelled(py, text, []) == [];
  }

  lemma AssembledLiteral(py: Python, text: Text, lo: int, hi: int, at: nat)
    requires lo <= at < hi && at < |text| && Opens(text[at])
    ensures Assembled(py, text, lo, hi, Piece(text, at))
  {
    var ps := [Literal(at)];
    assert ps[..0] == [];
    assert Spelled(py, text, ps) == Spelled(py, text, ps[..0]) + Piece(text, at);
    assert Ordered(py, text, ps, lo, hi) && InText(py, text, ps);
  }

  // ------------------------------------------------------------------ evaluation

  /** A token whose value may reach a module request is assembled inside its own span. */
  ghost predicate Sourced(py: Python, text: Text, t: Token) {
    t.kind.StringToken? || t.kind.ConstantTemplate? ==> Assembled(py, text, t.start, t.end, t.value)
  }

  /** What the lexer guarantees of its tokens (and of any contiguous run of them). */
  ghost predicate Lexed(py: Python, text: Text, tokens: seq<Token>) {
    && Nested(tokens) && Within(tokens, 0, |text|)
    && forall i :: 0 <= i < |tokens| ==> Sourced(py, text, tokens[i])
  }

  lemma LexedSlice(py: Python, text: Text, tokens: seq<Token>, a: nat, b: nat)
    requires Lexed(py, text, tokens) && a <= b <= |tokens|
    ensures Lexed(py, text, tokens[a..b])
  {
    var part := tokens[a..b];
    forall i, j | 0 <= i < j < |part| ensures Follows(part[i], part[j]) {
      assert Follows(tokens[a + i], tokens[a + j]);
    }
  }

  /** A collapsed token list: disjoint spans. */
  ghost predicate Flat(py: Python, text: Text, ts: seq<Token>, lo: int, hi: int) {
    && Disjoint(ts) && Within(ts, lo, hi) && Within(ts, 0, |text|) && lo <= hi
    && forall i :: 0 <= i < |ts| ==> Sourced(py, text, ts[i])
  }

  lemma FlatSlice(py: Python, text: Text, ts: seq<Token>, lo: int, hi: int, x: nat, y: nat)
    requires Flat(py, text, ts, lo, hi) && x <= y <= |ts|
    ensures Lexed(py, text, ts[x..y]) && Within(ts[x..y], lo, hi)
    ensures y < |ts| ==> Within(ts[x..y], lo, ts[y].start) && lo <= ts[y].start
    ensures x > 0 ==> Within(ts[x..y], ts[x - 1].start, hi) && ts[x - 1].start <= hi
  {
    var part := ts[x..y];
    forall i | 0 <= i < |part| ensures part[i] == ts[x + i] {}
  }

  ghost predicate ResultAssembled(py: Python, text: Text, lo: int, hi: int, v: Outcome) {
    v.Known? ==>
      && (!v.v.Str? ==> Producible(py, v.v))
      && (JavascriptString(py, v.v).Some? ==> Assembled(py, text, lo, hi, JavascriptString(py, v.v).value))
  }

  /** Every constant the evaluator finds is spelled, in source order, by cooked literal
      pieces opened inside the evaluated tokens and by stringified primitives. */
  lemma {:induction false} EvaluatedIsAssembled(py: Python, text: Text, tokens: seq<Token>, lo: int, hi: int)
    requires Lexed(py, text, tokens) && Within(tokens, lo, hi) && lo <= hi
    ensures ResultAssembled(py, text, lo, hi, ConstantExpressionValue(py, tokens))
    decreases |tokens|, 2
  {
    hide Assembled, Sourced, Evaluate;
    CollapseIsOutermost(tokens);
    var flat := Collapse(tokens);
    var (a, b) := StripBounds(flat);
    var ts := flat[a..b];
    forall i | 0 <= i < |ts|
      ensures Sourced(py, text, ts[i]) && lo <= ts[i].start && ts[i].end <= hi && 0 <= ts[i].start && ts[i].end <= |text|
    {
      assert flat[a + i] in tokens;
    }
    FlatIsAssembled(py, text, ts, lo, hi);
  }

  lemma {:induction false} FlatIsAssembled(py: Python, text: Text, ts: seq<Token>, lo: int, hi: int)
    requires Flat(py, text, ts, lo, hi)
    ensures ResultAssembled(py, text, lo, hi, Evaluate(py, ts))
    decreases |ts|, 1
  {
    hide Assembled, Sourced, Flat, EvaluateBinary, ConstantExpressionValue;
    if ts != [] {
      var comma := LastOperator(ts, [COMMA]);
      var conditional := ConditionalIndices(ts);
      if comma.Some? {
        SliceIsAssembled(py, text, ts, lo, hi, comma.value + 1, |ts|);
        assert ts[comma.value + 1..|ts|] == ts[comma.value + 1..];
      } else if conditional.Some? {
        var (question, colon) := conditional.value;
        SliceIsAssembled(py, text, ts, lo, hi, question + 1, colon);
        SliceIsAssembled(py, text, ts, lo, hi, colon + 1, |ts|);
        assert ts[colon + 1..|ts|] == ts[colon + 1..];
      } else {
        BinaryIsAssembled(py, text, ts, lo, hi);
      }
    }
  }

  lemma {:induction false} SliceIsAssembled(py: Python, text: Text, ts: seq<Token>, lo: int, hi: int, x: nat, y: nat)
    requires Flat(py, text, ts, lo, hi) && x <= y <= |ts| && y - x < |ts|
    ensures ResultAssembled(py, text, lo, hi, ConstantExpressionValue(py, ts[x..y]))
    ensures y < |ts| ==> ResultAssembled(py, text, lo, ts[y].start, ConstantExpressionValue(py, ts[x..y]))
    ensures x > 0 ==> ResultAssembled(py, text, ts[x - 1].start, hi, ConstantExpressionValue(py, ts[x..y]))
    decreases y - x, 3
  {
    hide Assembled, Sourced, ConstantExpressionValue, ResultAssembled;
    FlatSlice(py, text, ts, lo, hi, x, y);
    EvaluatedIsAssembled(py, text, ts[x..y], lo, hi);
    if y < |ts| { EvaluatedIsAssembled(py, text, ts[x..y], lo, ts[y].start); }
    if x > 0 { EvaluatedIsAssembled(py, text, ts[x..y], ts[x - 1].start, hi); }
  }

  lemma {:induction false} BinaryIsAssembled(py: Python, text: Text, ts: seq<Token>, lo: int, hi: int)
    requires Flat(py, text, ts, lo, hi) && ts != []
    ensures ResultAssembled(py, text, lo, hi, EvaluateBinary(py, ts))
    decreases |ts|, 0
  {
    hide Assembled, Sourced, ConstantExpressionValue, ConstantPrimitive, Flat;
    var nullish, either := LastOperator(ts, NULLISH), LastOperator(ts, LOGICAL_OR);
    var both, plus := LastOperator(ts, LOGICAL_AND), LastOperator(ts, [PLUS]);
    if nullish.Some? {
      BothSides(py, text, ts, lo, hi, nullish.value, 2);
    } else if either.Some? {
      BothSides(py, text, ts, lo, hi, either.value, 2);
    } else if both.Some? {
      BothSides(py, text, ts, lo, hi, both.value, 2);
    } else if plus.Some? {
      SumIsAssembled(py, text, ts, lo, hi, plus.value);
    } else {
      PrimitiveIsAssembled(py, text, ts, lo, hi);
    }
  }

  lemma {:induction false} BothSides(py: Python, text: Text, ts: seq<Token>, lo: int, hi: int, k: nat, width: nat)
    requires Flat(py, text, ts, lo, hi) && 0 < width && k + width <= |ts|
    ensures ResultAssembled(py, text, lo, hi, ConstantExpressionValue(py, ts[..k]))
    ensures ResultAssembled(py, text, lo, hi, ConstantExpressionValue(py, ts[k + width..]))
    decreases |ts| - 1, 4
  {
    hide Assembled, Sourced, ConstantExpressionValue, ResultAssembled, Flat;
    SliceIsAssembled(py, text, ts, lo, hi, 0, k);
    SliceIsAssembled(py, text, ts, lo, hi, k + width, |ts|);
    assert ts[0..k] == ts[..k] && ts[k + width..|ts|] == ts[k + width..];
  }

  lemma {:induction false} SumIsAssembled(py: Python, text: Text, ts: seq<Token>, lo: int, hi: int, k: nat)
    requires Flat(py, text, ts, lo, hi) && k < |ts|
    ensures ResultAssembled(py, text, lo, hi, Plus(py, ConstantExpressionValue(py, ts[..k]), ConstantExpressionValue(py, ts[k + 1..])))
    decreases |ts| - 1, 4
  {
    hide Assembled, Sourced, ConstantExpressionValue;
    SliceIsAssembled(py, text, ts, lo, hi, 0, k);
    SliceIsAssembled(py, text, ts, lo, hi, k + 1, |ts|);
    assert ts[0..k] == ts[..k] && ts[k + 1..|ts|] == ts[k + 1..];
    var l, r := ConstantExpressionValue(py, ts[..k]), ConstantExpressionValue(py, ts[k + 1..]);
    if l.Known? && r.Known? {
      assert lo <= ts[k].start <= hi;
      AddIsAssembled(py, text, lo, ts[k].start, hi, l.v, r.v);
    }
  }

  lemma AddIsAssembled(py: Python, text: Text, lo: int, mid: int, hi: int, l: Value, r: Value)
    requires lo <= mid <= hi
    requires ResultAssembled(py, text, lo, mid, Known(l)) && ResultAssembled(py, text, mid, hi, Known(r))
    ensures ResultAssembled(py, text, lo, hi, Add(py, l, r))
  {
    hide Assembled, Producible;
    var sum := Add(py, l, r);
    if sum.Known? {
      if sum.v.Str? {
        AssembledConcat(py, text, lo, mid, hi, JavascriptString(py, l).value, JavascriptString(py, r).value);
      } else {
        ProducibleSum(py, l, r);
        if JavascriptString(py, sum.v).Some? { AssembledPrimitive(py, text, lo, hi, sum.v); }
      }
    }
  }

  lemma PrimitiveIsAssembled(py: Python, text: Text, ts: seq<Token>, lo: int, hi: int)
    requires Flat(py, text, ts, lo, hi)
    ensures ResultAssembled(py, text, lo, hi, ConstantPrimitive(py, ts))
  {
    hide Assembled, Producible;
    var v := ConstantPrimitive(py, ts);
    if v.Known? {
      if v.v.Str? {
        AssembledWiden(py, text, ts[0].start, ts[0].end, lo, hi, ts[0].value);
      } else {
        PrimitiveIsProducible(py, ts);
        if JavascriptString(py, v.v).Some? { AssembledPrimitive(py, text, lo, hi, v.v); }
      }
    }
  }

  lemma PrimitiveIsProducible(py: Python, ts: seq<Token>)
    requires ConstantPrimitive(py, ts).Known? && !ConstantPrimitive(py, ts).v.Str?
    ensures Producible(py, ConstantPrimitive(py, ts).v)
  {
    var v := ConstantPrimitive(py, ts).v;
    var s := if |ts| == 1 && ts[0].kind.Identifier? && v.Null? then NullWord
             else if |ts| == 1 && ts[0].kind.Identifier? && v.Bool? then BoolWord(v.b)
             else Numeral(JoinValues(ts));
    assert SourceValue(py, s) == Known(v);
  }

  // ------------------------------------------------------------------ the prefilter

  predicate AllLiteral(ps: seq<Part>) {
    forall i :: 0 <= i < |ps| ==> ps[i].Literal?
  }

  function Positions(ps: seq<Part>): (js: seq<nat>)
    requires AllLiteral(ps)
    ensures |js| == |ps| && forall i :: 0 <= i < |ps| ==> js[i] == ps[i].at
  {
    seq(|ps|, i requires 0 <= i < |ps| => ps[i].at)
  }

  lemma {:induction false} LiteralsAreSelected(py: Python, text: Text, ps: seq<Part>, lo: int, hi: int)
    requires Ordered(py, text, ps, lo, hi) && InText(py, text, ps) && AllLiteral(ps)
    ensures Selection(text, Positions(ps)) && Below(Positions(ps), |text|)
    ensures Joined(text, Positions(ps)) == Spelled(py, text, ps)
  {
    forall i | 0 <= i < |ps| ensures ps[i].at < |text| && Opens(text[ps[i].at]) {
      assert PartOk(py, text, ps[i], lo, hi);
    }
    var js := Positions(ps);
    assert Selection(text, js);
    if ps != [] {
      var front := ps[..|ps| - 1];
      assert Ordered(py, text, front, lo, hi);
      LiteralsAreSelected(py, text, front, lo, hi);
      assert js[..|js| - 1] == Positions(front);
    }
  }

  /** The parts before the target is complete are all literals. */
  ghost predicate LiteralUpTo(py: Python, text: Text, ps: seq<Part>, target: Text)
    requires InText(py, text, ps)
  {
    exists k :: 0 <= k <= |ps| && AllLiteral(ps[..k]) && target <= Spelled(py, text, ps[..k])
  }

  /** A request whose first `|target|` characters come from literals is never missed. */
  lemma LiteralRequestIsFound(py: Python, text: Text, ps: seq<Part>, lo: int, hi: int, target: Text)
    requires Ordered(py, text, ps, lo, hi) && InText(py, text, ps) && LiteralUpTo(py, text, ps, target)
    ensures SpellsPrefix(text, |text|, target)
  {
    var k :| 0 <= k <= |ps| && AllLiteral(ps[..k]) && target <= Spelled(py, text, ps[..k]);
    assert Ordered(py, text, ps[..k], lo, hi);
    LiteralsAreSelected(py, text, ps[..k], lo, hi);
  }

  /** One of the two is a prefix of the other. */
  predicate Agree(a: Text, b: Text) { a <= b || b <= a }

  /** A constant that an expression without strings can have, and that spells something. */
  ghost predicate Stringifies(py: Python, v: Value) {
    Producible(py, v) && JavascriptString(py, v).Some? && JavascriptString(py, v).value != []
  }

  /** No stringified constant that an expression can have stands at any offset of `target`. */
  ghost predicate PrimitiveFree(py: Python, target: Text) {
    forall o: nat, v: Value :: o < |target| && Stringifies(py, v) ==> !Agree(target[o..], JavascriptString(py, v).value)
  }

  ghost predicate NoBlanks(py: Python, ps: seq<Part>) {
    forall i :: 0 <= i < |ps| && ps[i].Primitive? ==> Stringifies(py, ps[i].v)
  }

  /** Primitives that spell nothing may be dropped. */
  lemma {:induction false} DropBlanks(py: Python, text: Text, ps: seq<Part>, lo: int, hi: int) returns (qs: seq<Part>)
    requires Ordered(py, text, ps, lo, hi) && InText(py, text, ps)
    ensures Ordered(py, text, qs, lo, hi) && InText(py, text, qs) && Spelled(py, text, qs) == Spelled(py, text, ps) && NoBlanks(py, qs)
    ensures forall i :: 0 <= i < |qs| && qs[i].Literal? ==> qs[i] in ps
  {
    hide PartText;
    if ps == [] { return []; }
    var front, last := ps[..|ps| - 1], ps[|ps| - 1];
    assert forall i :: 0 <= i < |front| ==> front[i] == ps[i];
    qs := DropBlanks(py, text, front, lo, hi);
    assert PartOk(py, text, last, lo, hi) && HasText(py, text, last);
    if last.Primitive? && PartText(py, text, last) == [] { return; }
    assert PartText(py, text, last) != [] || last.Literal?;
    forall i | 0 <= i < |qs| && qs[i].Literal? && last.Literal? ensures qs[i].at < last.at {
      var j :| 0 <= j < |front| && front[j] == qs[i];
      assert ps[j] == qs[i];
    }
    KeepPart(py, text, qs, last, lo, hi);
    qs := qs + [last];
  }

  lemma KeepPart(py: Python, text: Text, qs: seq<Part>, p: Part, lo: int, hi: int)
    requires Ordered(py, text, qs, lo, hi) && InText(py, text, qs) && NoBlanks(py, qs)
    requires PartOk(py, text, p, lo, hi) && HasText(py, text, p) && (p.Primitive? ==> PartText(py, text, p) != [])
    requires forall i :: 0 <= i < |qs| && qs[i].Literal? && p.Literal? ==> qs[i].at < p.at
    ensures Ordered(py, text, qs + [p], lo, hi) && InText(py, text, qs + [p]) && NoBlanks(py, qs + [p])
    ensures Spelled(py, text, qs + [p]) == Spelled(py, text, qs) + PartText(py, text, p)
  {
    assert (qs + [p])[..|qs|] == qs;
  }

  lemma {:induction false} PrimitivesCannotHelp(py: Python, text: Text, ps: seq<Part>, k: nat, target: Text)
    requires InText(py, text, ps) && k <= |ps| && target <= Spelled(py, text, ps)
    requires NoBlanks(py, ps)
    requires PrimitiveFree(py, target) && AllLiteral(ps[..k])
    requires Spelled(py, text, ps[..k]) <= Spelled(py, text, ps)
    ensures LiteralUpTo(py, text, ps, target)
    decreases |ps| - k
  {
    hide PartText, Spelled, Agree, Piece;
    var front := Spelled(py, text, ps[..k]);
    var all := Spelled(py, text, ps);
    if k == |ps| { assert ps[..k] == ps; }
    if |target| <= |front| {
      assert target == all[..|target|] == front[..|target|];
    } else if k < |ps| {
      SpelledGrows(py, text, ps, k);
      if ps[k].Primitive? {
        AgreeWithin(target, front, JavascriptString(py, ps[k].v).value, all);
        assert false;
      } else {
        PrimitivesCannotHelp(py, text, ps, k + 1, target);
      }
    }
  }

  lemma SpelledGrows(py: Python, text: Text, ps: seq<Part>, k: nat)
    requires InText(py, text, ps) && k < |ps|
    ensures Spelled(py, text, ps[..k]) <= Spelled(py, text, ps[..k + 1]) <= Spelled(py, text, ps)
    ensures ps[k].Primitive? ==>
              JavascriptString(py, ps[k].v).Some? &&
              Spelled(py, text, ps[..k]) + JavascriptString(py, ps[k].v).value <= Spelled(py, text, ps)
    ensures AllLiteral(ps[..k]) && ps[k].Literal? ==> AllLiteral(ps[..k + 1])
  {
    hide JavascriptString, Piece;
    assert ps[..k + 1] == ps[..k] + [ps[k]];
    assert InText(py, text, [ps[k]]);
    SpelledLast(py, text, ps[..k], ps[k]);
    assert ps == ps[..k + 1] + ps[k + 1..];
    SpelledConcat(py, text, ps[..k + 1], ps[k + 1..]);
  }

  lemma AgreeWithin(target: Text, front: Text, next: Text, all: Text)
    requires target <= all && |front| < |target| && front + next <= all
    ensures Agree(target[|front|..], next)
  {
    var o := |front|;
    var tail := all[o..];
    assert target[o..] == all[..|target|][o..] == tail[..|target| - o];
    assert next == (front + next)[o..] == all[..o + |next|][o..] == tail[..|next|];
  }

  /** The evaluator (slow path) finds a request starting with `target` in some token run. */
  ghost predicate SlowPathFinds(py: Python, tokens: seq<Token>, target: Text) {
    exists a, b :: 0 <= a <= b <= |tokens| && RequestAt(py, tokens, a, b, target)
  }

  ghost predicate RequestAt(py: Python, tokens: seq<Token>, a: nat, b: nat, target: Text)
    requires a <= b <= |tokens|
  {
    var v := ConstantExpressionValue(py, tokens[a..b]);
    v.Known? && v.v.Str? && target <= v.v.s
  }

  /** No false negatives: whatever run of lexed tokens evaluates to a string starting with
      `target`, the prefilter accepts the text. */
  lemma PrefilterMissesNothing(py: Python, text: Text, tokens: seq<Token>, target: Text)
    requires Lexed(py, text, tokens) && PrimitiveFree(py, target) && SlowPathFinds(py, tokens, target)
    ensures SpellsPrefix(text, |text|, target)
  {
    var a, b :| 0 <= a <= b <= |tokens| && RequestAt(py, tokens, a, b, target);
    LexedSlice(py, text, tokens, a, b);
    EvaluatedIsAssembled(py, text, tokens[a..b], 0, |text|);
    var s := ConstantExpressionValue(py, tokens[a..b]).v.s;
    var ps: seq<Part> :| Ordered(py, text, ps, 0, |text|) && InText(py, text, ps) && Spelled(py, text, ps) == s;
    var qs := DropBlanks(py, text, ps, 0, |text|);
    assert qs[..0] == [];
    PrimitivesCannotHelp(py, text, qs, 0, target);
    LiteralRequestIsFound(py, text, qs, 0, |text|, target);
  }
}
