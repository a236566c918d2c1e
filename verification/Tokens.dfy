/** Lexer tokens (scripts/frontend_imports.py) and the layout of their source spans. */
module Tokens {
  import opened Text

  datatype TokenKind = StringToken | ConstantTemplate | ComputedTemplate | Identifier | Punctuation

  datatype Token = Token(kind: TokenKind, value: Text, lineno: int, start: int, end: int)

  predicate IsPunct(t: Token, c: int) {
    t.kind.Punctuation? && t.value == [c]
  }

  predicate IsTemplate(t: Token) {
    t.kind.ConstantTemplate? || t.kind.ComputedTemplate?
  }

  /** Two spans in list order: disjoint, or the later one strictly inside an earlier template. */
  predicate Follows(a: Token, b: Token) {
    a.start < b.start && (a.end <= b.start || (IsTemplate(a) && b.end < a.end))
  }

  /** Spans are non-empty, sorted by start, and pairwise disjoint or nested in templates. */
  predicate Nested(tokens: seq<Token>) {
    && (forall i :: 0 <= i < |tokens| ==> tokens[i].start < tokens[i].end)
    && (forall i, j :: 0 <= i < j < |tokens| ==> Follows(tokens[i], tokens[j]))
  }

  /** Spans are pairwise disjoint, in source order. */
  predicate Disjoint(tokens: seq<Token>) {
    && (forall i :: 0 <= i < |tokens| ==> tokens[i].start < tokens[i].end)
    && (forall i, j :: 0 <= i < j < |tokens| ==> tokens[i].end <= tokens[j].start)
  }

  predicate Within(tokens: seq<Token>, lo: int, hi: int) {
    forall i :: 0 <= i < |tokens| ==> lo <= tokens[i].start && tokens[i].end <= hi
  }

  /** `_collapse_atomic_templates` from a given `atomic_end`. */
  function CollapseFrom(tokens: seq<Token>, atomicEnd: int): (r: seq<Token>)
    ensures |r| <= |tokens|
  {
    if tokens == [] then []
    else if tokens[0].start < atomicEnd then CollapseFrom(tokens[1..], atomicEnd)
    else [tokens[0]] + CollapseFrom(tokens[1..], if IsTemplate(tokens[0]) then tokens[0].end else atomicEnd)
  }

  function Collapse(tokens: seq<Token>): (r: seq<Token>)
    ensures |r| <= |tokens|
  {
    CollapseFrom(tokens, -1)
  }

  method CollapseAtomicTemplates(tokens: seq<Token>) returns (collapsed: seq<Token>)
    ensures collapsed == Collapse(tokens)
  {
    collapsed := [];
    var atomicEnd := -1;
    for i := 0 to |tokens|
      invariant collapsed + CollapseFrom(tokens[i..], atomicEnd) == Collapse(tokens)
    {
      assert tokens[i..][0] == tokens[i] && tokens[i..][1..] == tokens[i + 1..];
      if tokens[i].start < atomicEnd { continue; }
      collapsed := collapsed + [tokens[i]];
      if IsTemplate(tokens[i]) { atomicEnd := tokens[i].end; }
    }
  }

  /** Token `i` lies inside the span of a template listed before it. */
  predicate Enclosed(tokens: seq<Token>, i: nat)
    requires i < |tokens|
  {
    exists j :: 0 <= j < i && IsTemplate(tokens[j]) && tokens[i].end < tokens[j].end
  }

  /** No span straddles `a`: what starts before it ends by then. */
  predicate Clear(tokens: seq<Token>, a: int) {
    forall i :: 0 <= i < |tokens| && tokens[i].start < a ==> tokens[i].end <= a
  }

  lemma ClearTail(tokens: seq<Token>, a: int)
    requires tokens != [] && Nested(tokens) && Clear(tokens, a)
    ensures Nested(tokens[1..]) && Clear(tokens[1..], a)
    ensures tokens[0].start >= a && IsTemplate(tokens[0]) ==> Clear(tokens[1..], tokens[0].end)
  {
    var rest := tokens[1..];
    forall i | 0 <= i < |rest| ensures rest[i] == tokens[i + 1] && Follows(tokens[0], rest[i]) {}
  }

  lemma DisjointCons(t: Token, kept: seq<Token>)
    requires t.start < t.end && Disjoint(kept) && forall i :: 0 <= i < |kept| ==> t.end <= kept[i].start
    ensures Disjoint([t] + kept)
  {
  }

  lemma {:induction false} CollapseIsDisjoint(tokens: seq<Token>, a: int)
    requires Nested(tokens) && Clear(tokens, a)
    ensures Disjoint(CollapseFrom(tokens, a))
    ensures forall t :: t in CollapseFrom(tokens, a) ==> t in tokens && t.start >= a
  {
    hide Disjoint, Nested, Clear, Follows;
    if tokens == [] {
      NothingDisjoint();
    } else {
      var t, rest := tokens[0], tokens[1..];
      var b := if t.start >= a && IsTemplate(t) then t.end else a;
      ClearTail(tokens, a);
      HeadSpan(tokens);
      CollapseIsDisjoint(rest, b);
      var kept := CollapseFrom(rest, b);
      assert forall u :: u in kept ==> u in tokens;
      forall i | 0 <= i < |kept| && t.start >= a ensures t.end <= kept[i].start {
        assert kept[i] in rest && kept[i].start >= b;
        KeptFollows(tokens, kept[i]);
      }
      if t.start >= a { DisjointCons(t, kept); }
    }
  }

  lemma HeadSpan(tokens: seq<Token>)
    requires tokens != [] && Nested(tokens)
    ensures tokens[0].start < tokens[0].end
  {
  }

  lemma NothingDisjoint()
    ensures Disjoint([])
  {
  }

  lemma KeptFollows(tokens: seq<Token>, u: Token)
    requires tokens != [] && Nested(tokens) && u in tokens[1..]
    ensures tokens[0].start < tokens[0].end && (tokens[0].end <= u.start || (IsTemplate(tokens[0]) && u.start < tokens[0].end))
  {
    var k :| 0 <= k < |tokens[1..]| && tokens[1..][k] == u;
    assert tokens[k + 1] == u;
  }

  lemma EnclosedTail(tokens: seq<Token>, i: nat)
    requires 0 < i < |tokens|
    ensures Enclosed(tokens, i) <==> Enclosed(tokens[1..], i - 1) || (IsTemplate(tokens[0]) && tokens[i].end < tokens[0].end)
  {
    var rest := tokens[1..];
    if Enclosed(tokens, i) {
      var j :| 0 <= j < i && IsTemplate(tokens[j]) && tokens[i].end < tokens[j].end;
      if j > 0 { assert rest[j - 1] == tokens[j]; }
    }
    if Enclosed(rest, i - 1) {
      var j :| 0 <= j < i - 1 && IsTemplate(rest[j]) && rest[i - 1].end < rest[j].end;
      assert tokens[j + 1] == rest[j];
    }
  }

  lemma {:induction false} CollapseKeeps(tokens: seq<Token>, a: int, i: nat)
    requires Nested(tokens) && Clear(tokens, a) && i < |tokens|
    ensures tokens[i] in CollapseFrom(tokens, a) <==> tokens[i].start >= a && !Enclosed(tokens, i)
  {
    var t, rest := tokens[0], tokens[1..];
    var b := if t.start >= a && IsTemplate(t) then t.end else a;
    ClearTail(tokens, a);
    CollapseIsDisjoint(tokens, a);
    if i > 0 {
      assert Follows(t, tokens[i]);
      EnclosedTail(tokens, i);
      CollapseKeeps(rest, b, i - 1);
      assert rest[i - 1] == tokens[i];
    }
  }

  /** Collapsing a lexed token list keeps exactly the tokens outside every template, and
      what is kept has pairwise disjoint spans. */
  lemma CollapseIsOutermost(tokens: seq<Token>)
    requires Nested(tokens)
    requires forall i :: 0 <= i < |tokens| ==> tokens[i].start >= 0
    ensures Disjoint(Collapse(tokens))
    ensures forall t :: t in Collapse(tokens) ==> t in tokens
    ensures forall i :: 0 <= i < |tokens| ==> (tokens[i] in Collapse(tokens) <==> !Enclosed(tokens, i))
  {
    CollapseIsDisjoint(tokens, -1);
    forall i | 0 <= i < |tokens|
      ensures tokens[i] in Collapse(tokens) <==> !Enclosed(tokens, i)
    {
      CollapseKeeps(tokens, -1, i);
    }
  }
}
