/** The Rust use-tree parser `UseTreeParser` (scripts/check_anyharness_boundaries.py): a
    recursive descent over one mutable index that flattens nested groups to import paths. */
module UseTree {
  import opened Text

  datatype Token = Token(value: string, lineno: int)

  datatype ImportPath = ImportPath(parts: seq<string>, lines: seq<int>)

  predicate IdentStart(c: char) { 'a' <= c <= 'z' || 'A' <= c <= 'Z' || c == '_' }

  predicate IdentPart(c: char) { IdentStart(c) || '0' <= c <= '9' }

  predicate PlainIdent(s: string) {
    s != "" && IdentStart(s[0]) && forall i :: 0 < i < |s| ==> IdentPart(s[i])
  }

  /** `Token.is_ident`, raw identifiers included. */
  predicate IsIdent(s: string) {
    PlainIdent(s) || (|s| > 2 && s[..2] == "r#" && PlainIdent(s[2..]))
  }

  predicate EndsTree(v: string) { v == "," || v == "}" || v == ";" }

  /** A finished parse, or the loop of `parse_group` turning forever without advancing. */
  datatype Parse = Done(paths: seq<ImportPath>, next: nat) | Spins

  function PathOf(parts: seq<string>, lines: seq<int>): seq<ImportPath> {
    if parts == [] then [] else [ImportPath(parts, lines)]
  }

  /** `skip_alias` from index `i`. */
  function SkipAlias(ts: seq<Token>, i: nat): (j: nat)
    requires i <= |ts|
    ensures i <= j <= |ts| && j <= i + 2
    ensures j == i + 2 ==> ts[i].value == "as" && IsIdent(ts[i + 1].value)
    ensures j == i + 1 ==> ts[i].value == "as" || IsIdent(ts[i].value)
    ensures j < |ts| && (j == i || (j == i + 1 && ts[i].value == "as")) ==> !IsIdent(ts[j].value)
    ensures j == i < |ts| ==> ts[i].value != "as"
  {
    var k := if i < |ts| && ts[i].value == "as" then i + 1 else i;
    if k < |ts| && IsIdent(ts[k].value) then k + 1 else k
  }

  /** `parse_tree` as a function of the index. */
  function ParseTree(ts: seq<Token>, i: nat, parts: seq<string>, lines: seq<int>): (r: Parse)
    requires i <= |ts|
    ensures r.Done? ==> i <= r.next <= |ts|
    decreases |ts| - i, 0
  {
    if i == |ts| || EndsTree(ts[i].value) then Done(PathOf(parts, lines), i)
    else if ts[i].value == "{" then ParseGroup(ts, i + 1, parts, lines)
    else if ts[i].value == "*" then Done([ImportPath(parts + ["*"], lines + [ts[i].lineno])], i + 1)
    else if !IsIdent(ts[i].value) then ParseTree(ts, i + 1, parts, lines)
    else if ts[i].value == "as" then Done(PathOf(parts, lines), SkipAlias(ts, i + 1))
    else
      var longer, longerLines := parts + [ts[i].value], lines + [ts[i].lineno];
      if i + 1 < |ts| && ts[i + 1].value == "::" then
        if i + 2 < |ts| && ts[i + 2].value == "{" then ParseGroup(ts, i + 3, longer, longerLines)
        else ParseTree(ts, i + 2, longer, longerLines)
      else if i + 1 < |ts| && ts[i + 1].value == "as" then Done([ImportPath(longer, longerLines)], SkipAlias(ts, i + 1))
      else Done([ImportPath(longer, longerLines)], i + 1)
  }

  /** `parse_group` as a function of the index. A turn of its loop that consumes nothing
      leaves the parser exactly as it was, so the loop never ends. */
  function ParseGroup(ts: seq<Token>, i: nat, parts: seq<string>, lines: seq<int>): (r: Parse)
    requires i <= |ts|
    ensures r.Done? ==> i <= r.next <= |ts|
    decreases |ts| - i, 1
  {
    if i == |ts| then Done([], i)
    else if ts[i].value == "}" then Done([], i + 1)
    else if ts[i].value == "," then ParseGroup(ts, i + 1, parts, lines)
    else
      var tree := ParseTree(ts, i, parts, lines);
      if tree.Spins? || tree.next == i then Spins
      else
        var rest := ParseGroup(ts, tree.next, parts, lines);
        if rest.Spins? then Spins else Done(tree.paths + rest.paths, rest.next)
  }

  class UseTreeParser {
    const tokens: seq<Token>
    var index: nat

    ghost predicate Valid() reads this { index <= |tokens| }

    constructor (tokens: seq<Token>)
      ensures Valid() && this.tokens == tokens && index == 0
    {
      this.tokens, index := tokens, 0;
    }

    method Consume(value: string) returns (done: bool)
      requires Valid()
      modifies this
      ensures Valid() && done == (old(index) < |tokens| && tokens[old(index)].value == value)
      ensures index == if done then old(index) + 1 else old(index)
    {
      if index >= |tokens| || tokens[index].value != value { return false; }
      index := index + 1;
      return true;
    }

    method SkipAliasTokens()
      requires Valid()
      modifies this
      ensures Valid() && index == SkipAlias(tokens, old(index))
    {
      var _ := Consume("as");
      if index < |tokens| && IsIdent(tokens[index].value) { index := index + 1; }
    }

    /** `parse`. `spins` marks the runs on which the source's loop never ends. */
    method Parse() returns (paths: seq<ImportPath>, spins: bool)
      requires Valid()
      modifies this
      ensures Valid() && spins == ParseTree(tokens, old(index), [], []).Spins?
      ensures !spins ==> ParseTree(tokens, old(index), [], []) == Done(paths, index)
    {
      paths, spins := ParseTreeAt([], []);
    }

    method ParseTreeAt(prefixParts: seq<string>, prefixLines: seq<int>) returns (paths: seq<ImportPath>, spins: bool)
      requires Valid()
      modifies this
      ensures Valid() && index >= old(index)
      ensures spins == ParseTree(tokens, old(index), prefixParts, prefixLines).Spins?
      ensures !spins ==> ParseTree(tokens, old(index), prefixParts, prefixLines) == Done(paths, index)
      decreases |tokens| - index, 0
    {
      hide IsIdent, EndsTree, SkipAlias, ParseGroup;
      var parts, lines := prefixParts, prefixLines;
      while true
        invariant Valid() && index >= old(index)
        invariant ParseTree(tokens, index, parts, lines) == ParseTree(tokens, old(index), prefixParts, prefixLines)
        decreases |tokens| - index
      {
        if index == |tokens| || EndsTree(tokens[index].value) {
          return PathOf(parts, lines), false;
        }
        var token := tokens[index];
        if token.value == "{" {
          index := index + 1;
          paths, spins := ParseGroupAt(parts, lines);
          return;
        }
        if token.value == "*" {
          index := index + 1;
          return [ImportPath(parts + ["*"], lines + [token.lineno])], false;
        }
        if !IsIdent(token.value) {
          index := index + 1;
          continue;
        }
        index := index + 1;
        if token.value == "as" {
          SkipAliasTokens();
          return PathOf(parts, lines), false;
        }
        parts := parts + [token.value];
        lines := lines + [token.lineno];
        var separated := Consume("::");
        if separated {
          if index < |tokens| && tokens[index].value == "{" {
            index := index + 1;
            paths, spins := ParseGroupAt(parts, lines);
            return;
          }
          continue;
        }
        if index < |tokens| && tokens[index].value == "as" {
          SkipAliasTokens();
        }
        return [ImportPath(parts, lines)], false;
      }
    }

    method ParseGroupAt(prefixParts: seq<string>, prefixLines: seq<int>) returns (paths: seq<ImportPath>, spins: bool)
      requires Valid()
      modifies this
      ensures Valid() && index >= old(index)
      ensures spins == ParseGroup(tokens, old(index), prefixParts, prefixLines).Spins?
      ensures !spins ==> ParseGroup(tokens, old(index), prefixParts, prefixLines) == Done(paths, index)
      decreases |tokens| - index, 1
    {
      hide ParseTree;
      paths := [];
      while true
        invariant Valid() && index >= old(index)
        invariant var whole, rest := ParseGroup(tokens, old(index), prefixParts, prefixLines), ParseGroup(tokens, index, prefixParts, prefixLines);
                  whole == if rest.Spins? then Spins else Done(paths + rest.paths, rest.next)
        decreases |tokens| - index
      {
        if index == |tokens| {
          return paths, false;
        }
        if tokens[index].value == "}" {
          index := index + 1;
          return paths, false;
        }
        if tokens[index].value == "," {
          index := index + 1;
          continue;
        }
        var before := index;
        var more;
        more, spins := ParseTreeAt(prefixParts, prefixLines);
        if spins || index == before {
          return paths, true;
        }
        paths := paths + more;
      }
    }
  }

  // ------------------------------------------------------------------ termination

  /** Braces open before token `k`. */
  function BraceDepth(ts: seq<Token>, k: nat): int
    requires k <= |ts|
  {
    if k == 0 then 0
    else BraceDepth(ts, k - 1) + (if ts[k - 1].value == "{" then 1 else if ts[k - 1].value == "}" then -1 else 0)
  }

  /** From `i` on, a `;` is met before the brace open at `i` is closed. */
  ghost predicate SemicolonAhead(ts: seq<Token>, i: nat)
    requires i <= |ts|
  {
    exists k :: i <= k < |ts| && ts[k].value == ";" && StaysOpen(ts, i, k)
  }

  /** No brace open at `i` is closed up to `k`. */
  ghost predicate StaysOpen(ts: seq<Token>, i: nat, k: nat)
    requires i <= k <= |ts|
  {
    forall m :: i <= m <= k ==> BraceDepth(ts, m) >= BraceDepth(ts, i)
  }

  /** The tokens from `i` to `n` hold no `;`. */
  ghost predicate NoSemicolon(ts: seq<Token>, i: nat, n: nat)
    requires i <= n <= |ts|
  {
    forall m :: i <= m < n ==> ts[m].value != ";"
  }

  /** A turn that consumes nothing is a turn at `;`, and it repeats: the tree parser gives
      the same answer from the same place. */
  lemma StuckOnlyAtSemicolon(ts: seq<Token>, i: nat, parts: seq<string>, lines: seq<int>)
    requires i < |ts| && !(ts[i].value == "," || ts[i].value == "}")
    ensures ParseTree(ts, i, parts, lines).Done? && ParseTree(ts, i, parts, lines).next == i <==> ts[i].value == ";"
  {
  }

  lemma SemicolonFurther(ts: seq<Token>, i: nat, j: nat)
    requires i <= j <= |ts| && SemicolonAhead(ts, j) && StaysOpen(ts, i, j)
    ensures SemicolonAhead(ts, i)
  {
    hide BraceDepth;
    var k :| j <= k < |ts| && ts[k].value == ";" && StaysOpen(ts, j, k);
    assert StaysOpen(ts, i, k);
  }

  /** What a tree consumes: balanced braces and no `;`. */
  lemma {:induction false} TreeSpan(ts: seq<Token>, i: nat, parts: seq<string>, lines: seq<int>)
    requires i <= |ts|
    ensures ParseTree(ts, i, parts, lines).Spins? ==> SemicolonAhead(ts, i)
    ensures var r := ParseTree(ts, i, parts, lines);
            r.Done? ==> NoSemicolon(ts, i, r.next) && StaysOpen(ts, i, r.next) &&
                        (r.next < |ts| ==> BraceDepth(ts, r.next) == BraceDepth(ts, i))
    decreases |ts| - i, 0
  {
    hide SemicolonAhead, SkipAlias, IsIdent, ParseGroup;
    if i == |ts| || EndsTree(ts[i].value) {
    } else if ts[i].value == "{" {
      TreeGroupSpan(ts, i, i + 1, parts, lines);
    } else if ts[i].value == "*" {
    } else if !IsIdent(ts[i].value) {
      TreeSpan(ts, i + 1, parts, lines);
      if SemicolonAhead(ts, i + 1) { SemicolonFurther(ts, i, i + 1); }
    } else if ts[i].value != "as" && i + 1 < |ts| && ts[i + 1].value == "::" {
      TreeStepSpan(ts, i, parts, lines);
    } else {
      AliasSpan(ts, i, i + 1);
    }
  }

  /** A segment and a separator before the rest of a tree. */
  lemma {:induction false} TreeStepSpan(ts: seq<Token>, i: nat, parts: seq<string>, lines: seq<int>)
    requires i + 1 < |ts| && IsIdent(ts[i].value) && ts[i].value != "as" && ts[i + 1].value == "::"
    ensures ParseTree(ts, i, parts, lines).Spins? ==> SemicolonAhead(ts, i)
    ensures var r := ParseTree(ts, i, parts, lines);
            r.Done? ==> NoSemicolon(ts, i, r.next) && StaysOpen(ts, i, r.next) &&
                        (r.next < |ts| ==> BraceDepth(ts, r.next) == BraceDepth(ts, i))
    decreases |ts| - i - 1, 1
  {
    hide SemicolonAhead, SkipAlias, IsIdent, ParseGroup;
    var longer, longerLines := parts + [ts[i].value], lines + [ts[i].lineno];
    IdentsDiffer();
    assert BraceDepth(ts, i + 1) == BraceDepth(ts, i) && BraceDepth(ts, i + 2) == BraceDepth(ts, i);
    if i + 2 < |ts| && ts[i + 2].value == "{" {
      TreeGroupSpan(ts, i, i + 3, longer, longerLines);
    } else {
      TreeSpan(ts, i + 2, longer, longerLines);
      if SemicolonAhead(ts, i + 2) { SemicolonFurther(ts, i, i + 2); }
    }
  }

  /** A group opened one level below `i`. */
  lemma {:induction false} TreeGroupSpan(ts: seq<Token>, i: nat, g: nat, parts: seq<string>, lines: seq<int>)
    requires i < g <= |ts| && StaysOpen(ts, i, g) && BraceDepth(ts, g) == BraceDepth(ts, i) + 1 && NoSemicolon(ts, i, g)
    ensures var r := ParseGroup(ts, g, parts, lines);
            && (r.Spins? ==> SemicolonAhead(ts, i))
            && (r.Done? ==> NoSemicolon(ts, i, r.next) && StaysOpen(ts, i, r.next) &&
                            (r.next < |ts| ==> BraceDepth(ts, r.next) == BraceDepth(ts, i)))
    decreases |ts| - g, 2
  {
    hide ParseGroup, SemicolonAhead, BraceDepth;
    GroupSpan(ts, g, parts, lines);
    if ParseGroup(ts, g, parts, lines).Spins? { SemicolonFurther(ts, i, g); }
  }

  lemma AliasSpan(ts: seq<Token>, i: nat, j: nat)
    requires j == i + 1 <= |ts| && IsIdent(ts[i].value)
    ensures var n := SkipAlias(ts, j);
            NoSemicolon(ts, i, n) && StaysOpen(ts, i, n) && BraceDepth(ts, n) == BraceDepth(ts, i)
  {
    IdentsDiffer();
    var k := if j < |ts| && ts[j].value == "as" then j + 1 else j;
    assert BraceDepth(ts, j) == BraceDepth(ts, i) && BraceDepth(ts, k) == BraceDepth(ts, i);
  }

  /** What a group consumes: up to and with the brace that closes it, and no `;`. */
  lemma {:induction false} GroupSpan(ts: seq<Token>, i: nat, parts: seq<string>, lines: seq<int>)
    requires i <= |ts|
    ensures ParseGroup(ts, i, parts, lines).Spins? ==> SemicolonAhead(ts, i)
    ensures var r := ParseGroup(ts, i, parts, lines);
            r.Done? ==> NoSemicolon(ts, i, r.next) &&
                        (StaysOpen(ts, i, r.next) || (r.next > i && StaysOpen(ts, i, r.next - 1) && BraceDepth(ts, r.next) == BraceDepth(ts, i) - 1)) &&
                        (r.next < |ts| ==> BraceDepth(ts, r.next) == BraceDepth(ts, i) - 1)
    decreases |ts| - i, 1
  {
    hide ParseTree, SemicolonAhead;
    if i < |ts| && ts[i].value != "}" {
      if ts[i].value == "," {
        GroupSpan(ts, i + 1, parts, lines);
        if SemicolonAhead(ts, i + 1) { SemicolonFurther(ts, i, i + 1); }
      } else {
        TreeSpan(ts, i, parts, lines);
        GroupTurn(ts, i, parts, lines);
      }
    }
  }

  lemma {:induction false} GroupTurn(ts: seq<Token>, i: nat, parts: seq<string>, lines: seq<int>)
    requires i < |ts| && ts[i].value != "}" && ts[i].value != ","
    requires ParseTree(ts, i, parts, lines).Spins? ==> SemicolonAhead(ts, i)
    requires var r := ParseTree(ts, i, parts, lines);
             r.Done? ==> NoSemicolon(ts, i, r.next) && StaysOpen(ts, i, r.next) &&
                         (r.next < |ts| ==> BraceDepth(ts, r.next) == BraceDepth(ts, i))
    ensures ParseGroup(ts, i, parts, lines).Spins? ==> SemicolonAhead(ts, i)
    ensures var r := ParseGroup(ts, i, parts, lines);
            r.Done? ==> NoSemicolon(ts, i, r.next) &&
                        (StaysOpen(ts, i, r.next) || (r.next > i && StaysOpen(ts, i, r.next - 1) && BraceDepth(ts, r.next) == BraceDepth(ts, i) - 1)) &&
                        (r.next < |ts| ==> BraceDepth(ts, r.next) == BraceDepth(ts, i) - 1)
    decreases |ts| - i, 0
  {
    hide ParseTree, SemicolonAhead, BraceDepth;
    var tree := ParseTree(ts, i, parts, lines);
    if tree.Done? {
      var n := tree.next;
      if n == i {
        StuckOnlyAtSemicolon(ts, i, parts, lines);
        SemicolonHere(ts, i);
      } else if n < |ts| {
        GroupSpan(ts, n, parts, lines);
        if SemicolonAhead(ts, n) { SemicolonFurther(ts, i, n); }
      } else {
        GroupAtEnd(ts, parts, lines);
      }
    }
  }

  lemma GroupAtEnd(ts: seq<Token>, parts: seq<string>, lines: seq<int>)
    ensures ParseGroup(ts, |ts|, parts, lines) == Done([], |ts|)
  {
  }

  lemma SemicolonHere(ts: seq<Token>, i: nat)
    requires i < |ts| && ts[i].value == ";"
    ensures SemicolonAhead(ts, i)
  {
    assert StaysOpen(ts, i, i);
  }

  /** The loop of a group runs forever exactly when a `;` comes before its closing brace. */
  lemma GroupSpinsIff(ts: seq<Token>, i: nat, parts: seq<string>, lines: seq<int>)
    requires i <= |ts|
    ensures ParseGroup(ts, i, parts, lines).Spins? <==> SemicolonAhead(ts, i)
  {
    hide ParseGroup, BraceDepth;
    GroupSpan(ts, i, parts, lines);
  }

  /** Where the outermost group of a tree starts, if the tree gets to one. */
  function FirstGroup(ts: seq<Token>, i: nat): (r: Option<nat>)
    requires i <= |ts|
    ensures r.Some? ==> i < r.value <= |ts| && ts[r.value - 1].value == "{"
    decreases |ts| - i
  {
    if i == |ts| || EndsTree(ts[i].value) || ts[i].value == "*" || ts[i].value == "as" then None
    else if ts[i].value == "{" then Some(i + 1)
    else if !IsIdent(ts[i].value) then FirstGroup(ts, i + 1)
    else if i + 1 < |ts| && ts[i + 1].value == "::" then FirstGroup(ts, i + 2)
    else None
  }

  /** The parser runs forever exactly when the tree's outermost group meets a `;` before the
      brace that closes it. */
  lemma {:induction false} ParserSpinsIff(ts: seq<Token>, i: nat, parts: seq<string>, lines: seq<int>)
    requires i <= |ts|
    ensures ParseTree(ts, i, parts, lines).Spins? <==>
              FirstGroup(ts, i).Some? && SemicolonAhead(ts, FirstGroup(ts, i).value)
    decreases |ts| - i
  {
    hide SemicolonAhead, ParseGroup, SkipAlias, IsIdent;
    if i == |ts| || EndsTree(ts[i].value) || ts[i].value == "*" {
    } else if ts[i].value == "{" {
      GroupSpinsIff(ts, i + 1, parts, lines);
    } else if !IsIdent(ts[i].value) {
      AsIsIdent();
      ParserSpinsIff(ts, i + 1, parts, lines);
    } else if ts[i].value != "as" && i + 1 < |ts| && ts[i + 1].value == "::" {
      var longer, longerLines := parts + [ts[i].value], lines + [ts[i].lineno];
      if i + 2 < |ts| && ts[i + 2].value == "{" {
        GroupSpinsIff(ts, i + 3, longer, longerLines);
      } else {
        ParserSpinsIff(ts, i + 2, longer, longerLines);
      }
    }
  }

  lemma AsIsIdent()
    ensures IsIdent("as")
  {
  }

  lemma {:induction false} FirstGroupDepth(ts: seq<Token>, i: nat)
    requires i <= |ts|
    ensures FirstGroup(ts, i).Some? ==> BraceDepth(ts, FirstGroup(ts, i).value) == BraceDepth(ts, i) + 1
    decreases |ts| - i
  {
    hide IsIdent;
    if FirstGroup(ts, i).Some? && ts[i].value != "{" {
      if !IsIdent(ts[i].value) {
        FirstGroupDepth(ts, i + 1);
      } else {
        assert BraceDepth(ts, i + 1) == BraceDepth(ts, i) by { IdentsDiffer(); }
        FirstGroupDepth(ts, i + 2);
      }
    }
  }

  lemma IdentsDiffer()
    ensures !IsIdent("{") && !IsIdent("}") && !IsIdent("*") && !IsIdent(";") && !IsIdent(",")
  {
  }

  /** So it terminates on every token list with no `;` inside an open brace. */
  lemma ParserTerminates(ts: seq<Token>)
    requires forall k :: 0 <= k < |ts| && ts[k].value == ";" ==> BraceDepth(ts, k) <= 0
    ensures ParseTree(ts, 0, [], []).Done?
  {
    hide ParseTree;
    ParserSpinsIff(ts, 0, [], []);
    FirstGroupDepth(ts, 0);
  }

  /** Without that condition it may not: `{;` is never left. */
  lemma SemicolonInGroupSpins(lineno: int)
    ensures ParseTree([Token("{", lineno), Token(";", lineno)], 0, [], []).Spins?
  {
    var ts := [Token("{", lineno), Token(";", lineno)];
    assert ParseTree(ts, 1, [], []) == Done([], 1);
    assert ParseGroup(ts, 1, [], []).Spins?;
  }

  // ------------------------------------------------------------------ lines

  ghost predicate LinesMatch(paths: seq<ImportPath>) {
    forall i :: 0 <= i < |paths| ==> |paths[i].parts| == |paths[i].lines|
  }

  /** Every parsed path has one source line per segment. */
  lemma {:induction false} TreeLinesMatch(ts: seq<Token>, i: nat, parts: seq<string>, lines: seq<int>)
    requires i <= |ts| && |parts| == |lines|
    ensures ParseTree(ts, i, parts, lines).Done? ==> LinesMatch(ParseTree(ts, i, parts, lines).paths)
    decreases |ts| - i, 0
  {
    if i == |ts| || EndsTree(ts[i].value) {
    } else if ts[i].value == "{" {
      GroupLinesMatch(ts, i + 1, parts, lines);
    } else if ts[i].value == "*" || ts[i].value == "as" {
    } else if !IsIdent(ts[i].value) {
      TreeLinesMatch(ts, i + 1, parts, lines);
    } else if i + 1 < |ts| && ts[i + 1].value == "::" {
      if i + 2 < |ts| && ts[i + 2].value == "{" {
        GroupLinesMatch(ts, i + 3, parts + [ts[i].value], lines + [ts[i].lineno]);
      } else {
        TreeLinesMatch(ts, i + 2, parts + [ts[i].value], lines + [ts[i].lineno]);
      }
    }
  }

  lemma {:induction false} GroupLinesMatch(ts: seq<Token>, i: nat, parts: seq<string>, lines: seq<int>)
    requires i <= |ts| && |parts| == |lines|
    ensures ParseGroup(ts, i, parts, lines).Done? ==> LinesMatch(ParseGroup(ts, i, parts, lines).paths)
    decreases |ts| - i, 1
  {
    if i < |ts| && ts[i].value != "}" {
      if ts[i].value == "," {
        GroupLinesMatch(ts, i + 1, parts, lines);
      } else {
        TreeLinesMatch(ts, i, parts, lines);
        var tree := ParseTree(ts, i, parts, lines);
        if tree.Done? && tree.next != i { GroupLinesMatch(ts, tree.next, parts, lines); }
      }
    }
  }

  // ------------------------------------------------------------------ round trip

  /** Use trees (Rust Reference, "Use declarations"), carrying their tokens. */
  datatype Tree =
    | Leaf(seg: Token)
    | Alias(seg: Token, keyword: Token, name: Token)
    | Glob(star: Token)
    | Group(open: Token, items: Items, close: Token)
    | Step(seg: Token, sep: Token, rest: Tree)
    | Rooted(sep: Token, rest: Tree)

  /** Group contents: trees separated by commas, with any spare commas. */
  datatype Items = End | Comma(comma: Token, rest: Items) | Item(t: Tree, rest: Items)

  function Printed(t: Tree): (ts: seq<Token>)
    ensures |ts| > 0
  {
    match t
    case Leaf(seg) => [seg]
    case Alias(seg, keyword, name) => [seg, keyword, name]
    case Glob(star) => [star]
    case Group(open, items, close) => [open] + PrintedItems(items) + [close]
    case Step(seg, sep, rest) => [seg, sep] + Printed(rest)
    case Rooted(sep, rest) => [sep] + Printed(rest)
  }

  function PrintedItems(items: Items): seq<Token> {
    match items
    case End => []
    case Comma(comma, rest) => [comma] + PrintedItems(rest)
    case Item(t, rest) => Printed(t) + PrintedItems(rest)
  }

  predicate Segment(t: Token) { IsIdent(t.value) && t.value != "as" }

  predicate WellFormed(t: Tree) {
    match t
    case Leaf(seg) => Segment(seg)
    case Alias(seg, keyword, name) => Segment(seg) && keyword.value == "as" && IsIdent(name.value)
    case Glob(star) => star.value == "*"
    case Group(open, items, close) => open.value == "{" && close.value == "}" && WellFormedItems(items)
    case Step(seg, sep, rest) => Segment(seg) && sep.value == "::" && WellFormed(rest)
    case Rooted(sep, rest) => sep.value == "::" && WellFormed(rest)
  }

  predicate WellFormedItems(items: Items) {
    match items
    case End => true
    case Comma(comma, rest) => comma.value == "," && WellFormedItems(rest)
    case Item(t, rest) => WellFormed(t) && !rest.Item? && WellFormedItems(rest)
  }

  /** The paths a tree imports, in source order, under a prefix. */
  function Flatten(t: Tree, parts: seq<string>, lines: seq<int>): seq<ImportPath> {
    match t
    case Leaf(seg) => [ImportPath(parts + [seg.value], lines + [seg.lineno])]
    case Alias(seg, _, _) => [ImportPath(parts + [seg.value], lines + [seg.lineno])]
    case Glob(star) => [ImportPath(parts + ["*"], lines + [star.lineno])]
    case Group(_, items, _) => FlattenItems(items, parts, lines)
    case Step(seg, _, rest) => Flatten(rest, parts + [seg.value], lines + [seg.lineno])
    case Rooted(_, rest) => Flatten(rest, parts, lines)
  }

  function FlattenItems(items: Items, parts: seq<string>, lines: seq<int>): seq<ImportPath> {
    match items
    case End => []
    case Comma(_, rest) => FlattenItems(rest, parts, lines)
    case Item(t, rest) => Flatten(t, parts, lines) + FlattenItems(rest, parts, lines)
  }

  /** `part` stands at `i`, and what follows it ends a tree. */
  ghost predicate Stands(ts: seq<Token>, i: nat, part: seq<Token>) {
    i + |part| <= |ts| && ts[i..i + |part|] == part
  }

  predicate Follow(ts: seq<Token>, i: nat) {
    i < |ts| ==> EndsTree(ts[i].value)
  }

  lemma StandsParts(ts: seq<Token>, i: nat, a: seq<Token>, b: seq<Token>)
    requires Stands(ts, i, a + b)
    ensures Stands(ts, i, a) && Stands(ts, i + |a|, b)
    ensures a != [] ==> ts[i] == a[0]
  {
    assert ts[i..i + |a|] == ts[i..i + |a + b|][..|a|] == (a + b)[..|a|] == a;
    assert ts[i + |a|..i + |a| + |b|] == ts[i..i + |a + b|][|a|..] == (a + b)[|a|..] == b;
    assert a != [] ==> ts[i] == ts[i..i + |a|][0];
  }

  lemma IdentIsNoPunctuation(v: string)
    requires IsIdent(v)
    ensures !EndsTree(v) && v != "{" && v != "*" && v != "::"
  {
  }

  /** Parsing the printed tokens of a tree returns its flattened paths, in order. */
  lemma {:induction false} TreeRoundTrip(ts: seq<Token>, i: nat, t: Tree, parts: seq<string>, lines: seq<int>)
    requires WellFormed(t) && Stands(ts, i, Printed(t)) && Follow(ts, i + |Printed(t)|)
    ensures ParseTree(ts, i, parts, lines) == Done(Flatten(t, parts, lines), i + |Printed(t)|)
    decreases t
  {
    hide IsIdent, ParseTree, ParseGroup, Stands, Follow, Segment;
    match t
    case Leaf(_) | Alias(_, _, _) | Glob(_) => AtomRoundTrip(ts, i, t, parts, lines);
    case Group(open, items, close) =>
      assert Printed(t) == [open] + (PrintedItems(items) + [close]);
      StandsParts(ts, i, [open], PrintedItems(items) + [close]);
      ItemsRoundTrip(ts, i + 1, items, close, parts, lines);
      GroupStarts(ts, i, parts, lines);
    case Step(seg, sep, rest) =>
      StepParts(ts, i, seg, sep, rest);
      TreeRoundTrip(ts, i + 2, rest, parts + [seg.value], lines + [seg.lineno]);
      StepStarts(ts, i, parts, lines);
    case Rooted(sep, rest) =>
      StandsParts(ts, i, [sep], Printed(rest));
      TreeRoundTrip(ts, i + 1, rest, parts, lines);
      RootStarts(ts, i, parts, lines);
  }

  lemma StepParts(ts: seq<Token>, i: nat, seg: Token, sep: Token, rest: Tree)
    requires WellFormed(rest) && Stands(ts, i, [seg, sep] + Printed(rest))
    ensures Stands(ts, i + 2, Printed(rest)) && i + 2 < |ts| && ts[i] == seg && ts[i + 1] == sep
  {
    hide Stands, Printed;
    assert [seg, sep] + Printed(rest) == [seg] + ([sep] + Printed(rest));
    StandsParts(ts, i, [seg], [sep] + Printed(rest));
    StandsParts(ts, i + 1, [sep], Printed(rest));
    FirstToken(ts, i + 2, rest);
  }

  lemma AtomRoundTrip(ts: seq<Token>, i: nat, t: Tree, parts: seq<string>, lines: seq<int>)
    requires WellFormed(t) && Stands(ts, i, Printed(t)) && Follow(ts, i + |Printed(t)|)
    requires t.Leaf? || t.Alias? || t.Glob?
    ensures ParseTree(ts, i, parts, lines) == Done(Flatten(t, parts, lines), i + |Printed(t)|)
  {
    hide IsIdent, ParseGroup;
    var n := |Printed(t)|;
    forall k | 0 <= k < n ensures ts[i + k] == Printed(t)[k] { assert ts[i..i + n][k] == ts[i + k]; }
    assert ts[i + 0] == Printed(t)[0];
    match t
    case Leaf(seg) => IdentIsNoPunctuation(seg.value);
    case Alias(seg, keyword, name) =>
      IdentIsNoPunctuation(seg.value);
      assert Printed(t)[1] == keyword && Printed(t)[2] == name;
      assert ts[i + 1] == keyword && ts[i + 2] == name;
    case Glob(star) =>
  }

  lemma GroupStarts(ts: seq<Token>, i: nat, parts: seq<string>, lines: seq<int>)
    requires i < |ts| && ts[i].value == "{"
    ensures ParseTree(ts, i, parts, lines) == ParseGroup(ts, i + 1, parts, lines)
  {
    hide ParseGroup;
  }

  lemma StepStarts(ts: seq<Token>, i: nat, parts: seq<string>, lines: seq<int>)
    requires i + 2 < |ts| && Segment(ts[i]) && ts[i + 1].value == "::"
    ensures ParseTree(ts, i, parts, lines) == ParseTree(ts, i + 2, parts + [ts[i].value], lines + [ts[i].lineno])
  {
    hide IsIdent, ParseGroup;
    IdentIsNoPunctuation(ts[i].value);
    if ts[i + 2].value == "{" { GroupStarts(ts, i + 2, parts + [ts[i].value], lines + [ts[i].lineno]); }
  }

  lemma RootStarts(ts: seq<Token>, i: nat, parts: seq<string>, lines: seq<int>)
    requires i < |ts| && ts[i].value == "::"
    ensures ParseTree(ts, i, parts, lines) == ParseTree(ts, i + 1, parts, lines)
  {
    hide IsIdent, ParseGroup;
    NotIdent();
  }

  lemma NotIdent()
    ensures !IsIdent("::")
  {
  }

  /** A tree that starts with a brace is a group. */
  lemma FirstToken(ts: seq<Token>, i: nat, t: Tree)
    requires WellFormed(t) && Stands(ts, i, Printed(t))
    ensures i < |ts| && ts[i] == Printed(t)[0] && (ts[i].value == "{" <==> t.Group?)
    ensures ts[i].value != "}" && ts[i].value != ","
  {
    assert ts[i..i + |Printed(t)|][0] == ts[i];
  }

  lemma {:induction false} ItemsRoundTrip(ts: seq<Token>, i: nat, items: Items, close: Token, parts: seq<string>, lines: seq<int>)
    requires WellFormedItems(items) && close.value == "}" && Stands(ts, i, PrintedItems(items) + [close])
    ensures ParseGroup(ts, i, parts, lines) == Done(FlattenItems(items, parts, lines), i + |PrintedItems(items)| + 1)
    decreases items
  {
    hide IsIdent, ParseTree, ParseGroup, Stands;
    match items
    case End =>
      assert PrintedItems(items) + [close] == [close];
      GroupCloses(ts, i, close, parts, lines);
    case Comma(comma, rest) =>
      assert PrintedItems(items) + [close] == [comma] + (PrintedItems(rest) + [close]);
      StandsParts(ts, i, [comma], PrintedItems(rest) + [close]);
      ItemsRoundTrip(ts, i + 1, rest, close, parts, lines);
      GroupComma(ts, i, comma, parts, lines);
    case Item(t, rest) =>
      assert PrintedItems(items) + [close] == Printed(t) + (PrintedItems(rest) + [close]);
      StandsParts(ts, i, Printed(t), PrintedItems(rest) + [close]);
      ItemEnds(ts, i + |Printed(t)|, rest, close);
      TreeRoundTrip(ts, i, t, parts, lines);
      ItemsRoundTrip(ts, i + |Printed(t)|, rest, close, parts, lines);
      FirstToken(ts, i, t);
      GroupItem(ts, i, parts, lines);
  }

  lemma GroupCloses(ts: seq<Token>, i: nat, close: Token, parts: seq<string>, lines: seq<int>)
    requires close.value == "}" && Stands(ts, i, [close])
    ensures ParseGroup(ts, i, parts, lines) == Done([], i + 1)
  {
    assert ts[i] == ts[i..i + 1][0];
  }

  lemma GroupComma(ts: seq<Token>, i: nat, comma: Token, parts: seq<string>, lines: seq<int>)
    requires comma.value == "," && Stands(ts, i, [comma])
    ensures i < |ts| && ParseGroup(ts, i, parts, lines) == ParseGroup(ts, i + 1, parts, lines)
  {
    hide ParseTree;
    assert ts[i] == ts[i..i + 1][0];
  }

  lemma ItemEnds(ts: seq<Token>, next: nat, rest: Items, close: Token)
    requires !rest.Item? && WellFormedItems(rest) && close.value == "}" && Stands(ts, next, PrintedItems(rest) + [close])
    ensures Follow(ts, next)
  {
    assert ts[next] == ts[next..next + |PrintedItems(rest) + [close]|][0];
  }

  lemma GroupItem(ts: seq<Token>, i: nat, parts: seq<string>, lines: seq<int>)
    requires i < |ts| && ts[i].value != "}" && ts[i].value != ","
    requires ParseTree(ts, i, parts, lines).Done? && ParseTree(ts, i, parts, lines).next > i
    ensures var tree := ParseTree(ts, i, parts, lines);
            var rest := ParseGroup(ts, tree.next, parts, lines);
            rest.Done? ==> ParseGroup(ts, i, parts, lines) == Done(tree.paths + rest.paths, rest.next)
  {
    hide ParseTree;
  }

  // ------------------------------------------------------------------ statements

  /** `parse_use_paths` on the tokens of a statement: what follows the first `use`. */
  function ParseUse(tokens: seq<Token>): Parse {
    if tokens == [] then Done([], 0)
    else if tokens[0].value == "use" then ParseTree(tokens[1..], 0, [], [])
    else ParseUse(tokens[1..])
  }

  /** `pub(crate) use TREE;` yields exactly the flattened tree. */
  lemma {:induction false} StatementRoundTrip(visibility: seq<Token>, keyword: Token, t: Tree, semicolon: Token)
    requires forall i :: 0 <= i < |visibility| ==> visibility[i].value != "use"
    requires keyword.value == "use" && semicolon.value == ";" && WellFormed(t)
    ensures ParseUse(visibility + [keyword] + Printed(t) + [semicolon]) == Done(Flatten(t, [], []), |Printed(t)|)
    decreases |visibility|
  {
    var ts := visibility + [keyword] + Printed(t) + [semicolon];
    if visibility == [] {
      assert ts[1..] == Printed(t) + [semicolon];
      assert Stands(ts[1..], 0, Printed(t));
      TreeRoundTrip(ts[1..], 0, t, [], []);
    } else {
      assert ts[1..] == visibility[1..] + [keyword] + Printed(t) + [semicolon];
      StatementRoundTrip(visibility[1..], keyword, t, semicolon);
    }
  }
}
