/** The lexer and the evaluator of scripts/frontend_imports.py meet at templates: a template
    token that the lexer emitted is the root of a well-formed tree, whenever its
    interpolations are expressions. */
module TemplateTree {
  import opened Text
  import opened JsStrings
  import opened Prefilter
  import opened Tokens
  import opened ConstEval
  import opened LexerLines
  import opened Identifiers
  import opened LexerMachine
  import opened LexerSpec
  import opened ExprTree
  import ExprEval

  /** Each interpolation's tokens print the tree that goes with it, in which no question mark
      touches a decimal point. */
  ghost predicate HolesPrint(o: Setting, holes: seq<Hole>, inner: seq<Token>, es: seq<Expr>) {
    && |es| == |holes|
    && (holes != [] ==>
          var h, e := holes[|holes| - 1], es[|es| - 1];
          && h.count <= |inner| && inner[|inner| - h.count..] == Printed(e)
          && ExprTree.WellFormed(o.py, e) && Untouched(e) && ExprEval.LaidOut(Outer(e))
          && HolesPrint(o, holes[..|holes| - 1], inner[..|inner| - h.count], es[..|es| - 1]))
  }

  /** The interpolations with the piece behind each, in front of `rest`. */
  function PartsOf(text: Text, holes: seq<Hole>, es: seq<Expr>, opener: nat, rest: Parts): Parts
    requires |es| == |holes| && opener < |text| && forall i :: 0 <= i < |holes| ==> holes[i].opener < |text|
    decreases |holes|
  {
    if holes == [] then rest
    else
      var front := holes[..|holes| - 1];
      assert forall i :: 0 <= i < |front| ==> front[i] == holes[i];
      PartsOf(text, front, es[..|es| - 1], holes[|holes| - 1].opener, Interpolation(es[|es| - 1], Piece(text, opener), rest))
  }

  lemma {:induction false} OpenersInside(o: Setting, text: Text, start: nat, holes: seq<Hole>, inner: seq<Token>, opener: nat)
    requires HolesOk(o, text, start, holes, inner, opener)
    ensures forall i :: 0 <= i < |holes| ==> holes[i].opener < |text|
    ensures start < |text| && start <= opener
    ensures forall i :: 0 <= i < |inner| ==> inner[i].end <= opener
    decreases |holes|
  {
    hide HoleRun, HolesOk;
    HolesEnd(o, text, start, holes, inner, opener);
    if holes != [] {
      var h := holes[|holes| - 1];
      var front, early, run := holes[..|holes| - 1], inner[..|inner| - h.count], inner[|inner| - h.count..];
      OpenersInside(o, text, start, front, early, h.opener);
      RunInside(o, text, run, h.dollar + 2, opener);
      assert forall i :: 0 <= i < |front| ==> holes[i] == front[i];
      assert inner == early + run;
      EndInside(early, run, opener);
    }
  }

  /** The last interpolation, in front of the piece that `opener` opens. */
  lemma HolesEnd(o: Setting, text: Text, start: nat, holes: seq<Hole>, inner: seq<Token>, opener: nat)
    requires HolesOk(o, text, start, holes, inner, opener)
    ensures opener < |text| && (holes == [] ==> inner == [] && opener == start)
    ensures holes != [] ==>
              var h := holes[|holes| - 1];
              && h.count <= |inner| && h.opener < h.dollar && h.dollar + 2 <= opener
              && HoleRun(o, text, inner[|inner| - h.count..], h.dollar + 2, opener)
              && HolesOk(o, text, start, holes[..|holes| - 1], inner[..|inner| - h.count], h.opener)
  {
    hide HoleRun;
  }

  lemma EndInside(early: seq<Token>, run: seq<Token>, opener: nat)
    requires forall i :: 0 <= i < |early| ==> early[i].end <= opener
    requires forall i :: 0 <= i < |run| ==> run[i].end <= opener
    ensures forall i :: 0 <= i < |early + run| ==> (early + run)[i].end <= opener
  {
  }

  lemma RunInside(o: Setting, text: Text, run: seq<Token>, lo: nat, hi: nat)
    requires HoleRun(o, text, run, lo, hi)
    ensures Within(run, lo, hi) && Convertible(o.py, run)
  {
  }

  /** What is known of the parts behind the last hole carries over to all of them. */
  lemma {:induction false} PartsAreWell(o: Setting, text: Text, start: nat, holes: seq<Hole>, inner: seq<Token>, es: seq<Expr>,
                                        opener: nat, rest: Parts)
    requires HolesOk(o, text, start, holes, inner, opener) && HolesPrint(o, holes, inner, es)
    requires forall i :: 0 <= i < |holes| ==> holes[i].opener < |text|
    requires WellFormedParts(o.py, rest) && ReadableParts(o.py, rest)
    ensures var parts := PartsOf(text, holes, es, opener, rest);
            WellFormedParts(o.py, parts) && ReadableParts(o.py, parts) && PrintedParts(parts) == inner + PrintedParts(rest)
    decreases |holes|
  {
    hide HoleRun, ExprTree.WellFormed, Untouched, ExprEval.LaidOut, Piece, Partial, WellFormedParts, ReadableParts, PrintedParts,
         Convertible, ConstantExpressionValue, InterpolationText, JavascriptString, Printed;
    if holes != [] {
      var h, e := holes[|holes| - 1], es[|es| - 1];
      var front, early, run := holes[..|holes| - 1], inner[..|inner| - h.count], inner[|inner| - h.count..];
      assert forall i :: 0 <= i < |front| ==> front[i] == holes[i];
      RunInside(o, text, run, h.dollar + 2, opener);
      ExprEval.PrintedEvaluates(o.py, e);
      ConvertibleIsReadable(o.py, e);
      OneMorePart(o.py, e, Piece(text, opener), rest);
      PartsAreWell(o, text, start, front, early, es[..|es| - 1], h.opener, Interpolation(e, Piece(text, opener), rest));
      assert inner == early + run;
    } else {
      assert inner + PrintedParts(rest) == PrintedParts(rest);
    }
  }

  lemma OneMorePart(py: Python, e: Expr, cooked: Text, rest: Parts)
    requires ExprTree.WellFormed(py, e) && WellFormedParts(py, rest) && ReadableParts(py, rest)
    requires var v := Partial(py, e); !v.Raises? && (v.Known? ==> JavascriptString(py, v.v).Some?)
    ensures var more := Interpolation(e, cooked, rest);
            WellFormedParts(py, more) && ReadableParts(py, more) && PrintedParts(more) == Printed(e) + PrintedParts(rest)
  {
  }

  lemma ConvertibleIsReadable(py: Python, e: Expr)
    requires Convertible(py, Printed(e)) && ConstantExpressionValue(py, Printed(e)) == Partial(py, e)
    ensures var v := Partial(py, e); !v.Raises? && (v.Known? ==> JavascriptString(py, v.v).Some?)
    ensures InterpolationText(py, Printed(e)) == if Partial(py, e).Known? then JavascriptString(py, Partial(py, e).v) else None
  {
    hide ConstantExpressionValue, Partial;
  }

  function Joined3(a: Option<Text>, b: Text, c: Option<Text>): Option<Text> {
    if a.None? || c.None? then None else Some(a.value + b + c.value)
  }

  /** The lexer's text, piece by piece from the front, is the tree's, part by part. */
  lemma {:induction false} PartsSpell(o: Setting, text: Text, start: nat, holes: seq<Hole>, inner: seq<Token>, es: seq<Expr>,
                                      opener: nat, rest: Parts)
    requires HolesOk(o, text, start, holes, inner, opener) && HolesPrint(o, holes, inner, es) && start < |text|
    requires forall i :: 0 <= i < |holes| ==> holes[i].opener < |text|
    ensures Joined3(HolesText(o, text, holes, inner), Piece(text, opener), PartialParts(o.py, rest)) ==
              Joined3(Some([]), Piece(text, start), PartialParts(o.py, PartsOf(text, holes, es, opener, rest)))
    decreases |holes|
  {
    hide HoleRun, ExprTree.WellFormed, Untouched, ExprEval.LaidOut, Piece, Partial, ConstantExpressionValue, InterpolationText;
    if holes != [] {
      var h, e := holes[|holes| - 1], es[|es| - 1];
      var front, early, run := holes[..|holes| - 1], inner[..|inner| - h.count], inner[|inner| - h.count..];
      assert forall i :: 0 <= i < |front| ==> front[i] == holes[i];
      RunInside(o, text, run, h.dollar + 2, opener);
      ExprEval.PrintedEvaluates(o.py, e);
      ConvertibleIsReadable(o.py, e);
      var more := Interpolation(e, Piece(text, opener), rest);
      PartsSpell(o, text, start, front, early, es[..|es| - 1], h.opener, more);
      Regroup(HolesText(o, text, front, early), Piece(text, h.opener), InterpolationText(o.py, run), Piece(text, opener),
              PartialParts(o.py, rest));
    }
  }

  lemma Regroup(a: Option<Text>, b: Text, v: Option<Text>, c: Text, d: Option<Text>)
    ensures Joined3(a, b, Joined3(v, c, d)) == Joined3(Joined3(a, b, v), c, d)
  {
    if a.Some? && v.Some? && d.Some? {
      assert a.value + b + (v.value + c + d.value) == (a.value + b + v.value) + c + d.value;
    }
  }

  /** A lexed template whose interpolations print well-formed trees is the root of a
      well-formed tree that prints as the template and its inner tokens. */
  lemma LexedTemplateIsWellFormed(o: Setting, text: Text, t: Token, inner: seq<Token>, holes: seq<Hole>, opener: nat, es: seq<Expr>)
    requires Interpolates(o, text, t, inner, holes, opener) && HolesPrint(o, holes, inner, es)
    requires forall i :: 0 <= i < |inner| ==> inner[i].start < inner[i].end
    ensures t.start < |text| && opener < |text| && forall i :: 0 <= i < |holes| ==> holes[i].opener < |text|
    ensures var e := TemplateLiteral(t, Piece(text, t.start), PartsOf(text, holes, es, opener, Done));
            ExprTree.WellFormed(o.py, e) && Untouched(e) && Printed(e) == [t] + inner
  {
    hide Piece, HoleRun, WellFormedParts, ReadableParts, PartsOf, PartialParts, PrintedParts, HolesText;
    OpenersInside(o, text, t.start, holes, inner, opener);
    var parts := PartsOf(text, holes, es, opener, Done);
    DoneIsWell(o.py);
    PartsAreWell(o, text, t.start, holes, inner, es, opener, Done);
    PartsSpell(o, text, t.start, holes, inner, es, opener, Done);
    assert inner + [] == inner;
    var front := HolesText(o, text, holes, inner);
    assert [] + Piece(text, t.start) == Piece(text, t.start);
    if front.Some? { assert front.value + Piece(text, opener) + [] == front.value + Piece(text, opener); }
  }

  lemma DoneIsWell(py: Python)
    ensures WellFormedParts(py, Done) && ReadableParts(py, Done) && PrintedParts(Done) == [] && PartialParts(py, Done) == Some([])
  {
  }
}
