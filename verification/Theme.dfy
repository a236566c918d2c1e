/** Token resolution in scripts/check_theme_contrast.py: `var()` with fallbacks, nested
    `color-mix()`, and literals, over a declaration table that may hold cycles. Literal
    colours and numerals are read by arbitrary functions. */
module Theme {
  import opened Colour
  import opened Text
  import Lists

  /** A declaration block, with the readers of literal colours and of percentage numerals. */
  datatype Theme = Theme(declarations: map<string, string>, literal: string -> Option<Paint>, numeral: string -> real)

  // ------------------------------------------------------------------ text

  /** `str.isspace`, which `strip` and the pattern `\s` go by. */
  predicate IsSpace(c: char) { WhiteSpace(c as int) }

  function Strip(s: string): (r: string)
    ensures |r| <= |s|
  {
    Lists.Strip(s, IsSpace)
  }

  function DepthAfter(depth: int, c: char): int {
    if c == '(' then depth + 1 else if c == ')' then depth - 1 else depth
  }

  /** `split_top_level` resumed with a depth and a current part. */
  function SplitFrom(s: string, separator: char, depth: int, current: string): (parts: seq<string>)
    ensures |parts| > 0
  {
    if s == "" then [current]
    else
      var d := DepthAfter(depth, s[0]);
      if s[0] == separator && d == 0 then [current] + SplitFrom(s[1..], separator, d, "")
      else SplitFrom(s[1..], separator, d, current + [s[0]])
  }

  function Split(s: string, separator: char): (parts: seq<string>)
    ensures |parts| > 0
  {
    SplitFrom(s, separator, 0, "")
  }

  method SplitTopLevel(text: string, separator: char) returns (parts: seq<string>)
    ensures parts == Split(text, separator)
  {
    parts := [];
    var depth := 0;
    var current: string := "";
    for i := 0 to |text|
      invariant parts + SplitFrom(text[i..], separator, depth, current) == Split(text, separator)
    {
      var c := text[i];
      assert text[i..][0] == c && text[i..][1..] == text[i + 1..];
      if c == '(' {
        depth := depth + 1;
      } else if c == ')' {
        depth := depth - 1;
      }
      if c == separator && depth == 0 {
        parts := parts + [current];
        current := "";
        continue;
      }
      current := current + [c];
    }
    parts := parts + [current];
  }

  /** Python's `separator.join(parts)`. */
  function Join(parts: seq<string>, separator: char): string {
    if parts == [] then "" else if |parts| == 1 then parts[0] else parts[0] + [separator] + Join(parts[1..], separator)
  }

  lemma JoinUnfolds(first: string, rest: seq<string>, separator: char)
    requires rest != []
    ensures Join([first] + rest, separator) == first + [separator] + Join(rest, separator)
  {
    assert ([first] + rest)[1..] == rest;
  }

  /** Joining undoes splitting. */
  lemma {:induction false} SplitJoins(s: string, separator: char, depth: int, current: string)
    ensures Join(SplitFrom(s, separator, depth, current), separator) == current + s
    decreases |s|
  {
    if s != "" {
      var d := DepthAfter(depth, s[0]);
      if s[0] == separator && d == 0 {
        SplitJoins(s[1..], separator, d, "");
        JoinUnfolds(current, SplitFrom(s[1..], separator, d, ""), separator);
        assert current + [separator] + ("" + s[1..]) == current + s;
      } else {
        SplitJoins(s[1..], separator, d, current + [s[0]]);
        assert current + [s[0]] + s[1..] == current + s;
      }
    }
  }

  /** Depth after a run of characters. */
  function Depth(s: string, depth: int): int {
    if s == "" then depth else Depth(s[1..], DepthAfter(depth, s[0]))
  }

  /** No separator at depth zero. */
  predicate Unsplit(s: string, separator: char, depth: int) {
    s == "" || (!(s[0] == separator && DepthAfter(depth, s[0]) == 0) && Unsplit(s[1..], separator, DepthAfter(depth, s[0])))
  }

  /** Parts that `split_top_level` tells apart: no separator at depth zero inside any, and
      every one but the last closes what it opens. */
  predicate Separable(parts: seq<string>, separator: char) {
    && parts != []
    && Unsplit(parts[0], separator, 0)
    && (|parts| > 1 ==> Depth(parts[0], 0) == 0 && Separable(parts[1..], separator))
  }

  lemma {:induction false} SplitSkips(part: string, rest: string, separator: char, depth: int, current: string)
    requires Unsplit(part, separator, depth)
    ensures SplitFrom(part + rest, separator, depth, current) == SplitFrom(rest, separator, Depth(part, depth), current + part)
    decreases |part|
  {
    if part == "" {
      assert part + rest == rest && current + part == current;
    } else {
      assert (part + rest)[1..] == part[1..] + rest;
      SplitSkips(part[1..], rest, separator, DepthAfter(depth, part[0]), current + [part[0]]);
      assert current + [part[0]] + part[1..] == current + part;
    }
  }

  /** Splitting undoes joining of separable parts. A separator is not a parenthesis. */
  lemma {:induction false} JoinSplits(parts: seq<string>, separator: char)
    requires separator != '(' && separator != ')' && Separable(parts, separator)
    ensures Split(Join(parts, separator), separator) == parts
    decreases |parts|
  {
    var first, rest := parts[0], parts[1..];
    if rest == [] {
      SplitSkips(first, "", separator, 0, "");
      assert first + "" == first && "" + first == first && parts == [first];
    } else {
      JoinSplits(rest, separator);
      var tail := [separator] + Join(rest, separator);
      SplitSkips(first, tail, separator, 0, "");
      assert first + [separator] + Join(rest, separator) == first + tail;
      assert tail[1..] == Join(rest, separator);
      assert "" + first == first && parts == [first] + rest;
    }
  }

  lemma {:induction false} UnsplitSnoc(s: string, c: char, separator: char, depth: int)
    requires Unsplit(s, separator, depth)
    ensures Depth(s + [c], depth) == DepthAfter(Depth(s, depth), c)
    ensures !(c == separator && Depth(s + [c], depth) == 0) ==> Unsplit(s + [c], separator, depth)
    decreases |s|
  {
    if s == "" {
      assert s + [c] == [c] && [c][1..] == "";
    } else {
      assert (s + [c])[1..] == s[1..] + [c];
      UnsplitSnoc(s[1..], c, separator, DepthAfter(depth, s[0]));
    }
  }

  /** What splitting returns is separable, so it is the only separable reading of the text. */
  lemma {:induction false} SplitIsSeparable(s: string, separator: char, depth: int, current: string)
    requires separator != '(' && separator != ')'
    requires Unsplit(current, separator, 0) && Depth(current, 0) == depth
    ensures Separable(SplitFrom(s, separator, depth, current), separator)
    decreases |s|
  {
    if s != "" {
      var d := DepthAfter(depth, s[0]);
      if s[0] == separator && d == 0 {
        SplitIsSeparable(s[1..], separator, d, "");
        assert ([current] + SplitFrom(s[1..], separator, d, ""))[1..] == SplitFrom(s[1..], separator, d, "");
      } else {
        UnsplitSnoc(current, s[0], separator, 0);
        SplitIsSeparable(s[1..], separator, d, current + [s[0]]);
      }
    }
  }

  lemma {:induction false} PartIsShorter(s: string, separator: char, depth: int, current: string, k: nat)
    requires k < |SplitFrom(s, separator, depth, current)|
    ensures |SplitFrom(s, separator, depth, current)[k]| <= |current| + |s|
    decreases |s|
  {
    if s != "" {
      var d := DepthAfter(depth, s[0]);
      if s[0] == separator && d == 0 {
        if k > 0 { PartIsShorter(s[1..], separator, d, "", k - 1); }
      } else {
        PartIsShorter(s[1..], separator, d, current + [s[0]], k);
      }
    }
  }

  /** The fallback of a `var()` is shorter than its arguments. */
  lemma FallbackIsShorter(args: string)
    requires |Split(args, ',')| > 1
    ensures |Join(Split(args, ',')[1..], ',')| < |args|
  {
    SplitJoins(args, ',', 0, "");
    var parts := Split(args, ',');
    JoinUnfolds(parts[0], parts[1..], ',');
    assert [parts[0]] + parts[1..] == parts;
    assert "" + args == args;
  }

  /** The arguments of a call `name(...)` that spans the whole text. */
  function CallArgs(text: string, name: string): (r: Option<string>)
    ensures r.Some? ==> |r.value| + |name| + 2 == |text|
  {
    if |text| >= |name| + 2 && name + "(" <= text && text[|text| - 1] == ')' then Some(text[|name| + 1..|text| - 1]) else None
  }

  predicate NumeralShape(s: string) {
    var digits := if s != "" && s[0] == '-' then s[1..] else s;
    digits != "" && forall i :: 0 <= i < |digits| ==> '0' <= digits[i] <= '9' || digits[i] == '.'
  }

  /** Index of the last white space, or -1. */
  function LastSpace(s: string): (r: int)
    ensures -1 <= r < |s|
  {
    if s == "" then -1 else if IsSpace(s[|s| - 1]) then |s| - 1 else LastSpace(s[..|s| - 1])
  }

  /** The trailing percentage of a mix operand: where its space is, and its numeral. */
  function TrailingPercent(operand: string): (r: Option<(nat, string)>)
    ensures r.Some? ==> r.value.0 < |operand|
  {
    var p := LastSpace(operand);
    if p >= 0 && operand[|operand| - 1] == '%' && p + 1 < |operand| && NumeralShape(operand[p + 1..|operand| - 1])
    then Some((p, operand[p + 1..|operand| - 1])) else None
  }

  function Lower(c: char): char { if 'A' <= c <= 'Z' then c + 32 as char else c }

  /** `parts[0].lower().startswith("in ")`. */
  predicate InColorSpace(s: string) {
    |s| >= 3 && Lower(s[0]) == 'i' && Lower(s[1]) == 'n' && s[2] == ' '
  }

  // ------------------------------------------------------------------ weights

  /** Default and normalise the two weights of a mix. */
  function Weights(first: Option<real>, second: Option<real>): Option<(real, real)> {
    var a := if first.Some? then first.value else if second.Some? then 1.0 - second.value else 0.5;
    var b := if second.Some? then second.value else if first.Some? then 1.0 - first.value else 0.5;
    if a + b <= 0.0 then None else Some((a / (a + b), b / (a + b)))
  }

  lemma WeightsAreNormal(first: Option<real>, second: Option<real>)
    requires first.Some? ==> 0.0 <= first.value <= 1.0
    requires second.Some? ==> 0.0 <= second.value <= 1.0
    ensures var w := Weights(first, second);
            w.Some? ==> w.value.0 >= 0.0 && w.value.1 >= 0.0 && w.value.0 + w.value.1 == 1.0
  {
    var a := if first.Some? then first.value else if second.Some? then 1.0 - second.value else 0.5;
    var b := if second.Some? then second.value else if first.Some? then 1.0 - first.value else 0.5;
    if a + b > 0.0 { Normalised(a, b); }
  }

  lemma Normalised(a: real, b: real)
    requires a >= 0.0 && b >= 0.0 && a + b > 0.0
    ensures a / (a + b) >= 0.0 && b / (a + b) >= 0.0 && a / (a + b) + b / (a + b) == 1.0
  {
    var t := a + b;
    var x, y := a / t, b / t;
    assert x * t == a && y * t == b;
    assert x * t + y * t == (x + y) * t;
    assert x + y == t / t;
  }

  // ------------------------------------------------------------------ resolution

  lemma FewerUnseen(names: set<string>, seen: set<string>, name: string)
    requires name in names && name !in seen
    ensures |names - (seen + {name})| < |names - seen|
  {
    assert names - seen == (names - (seen + {name})) + {name};
  }

  /** `resolve_with_alpha`. Dafny accepts the recursion for every declaration table: each
      step meets fewer unseen names, or as many with a shorter text. */
  function Resolve(theme: Theme, name: string, seen: set<string>): Option<Paint>
    decreases |theme.declarations.Keys - seen|, 0, 0
  {
    if name in seen || name !in theme.declarations then None
    else
      FewerUnseen(theme.declarations.Keys, seen, name);
      Value(theme, theme.declarations[name], seen + {name})
  }

  /** `_value`. */
  function Value(theme: Theme, value: string, seen: set<string>): Option<Paint>
    decreases |theme.declarations.Keys - seen|, |value|, 1
  {
    var text := Strip(value);
    var alias := CallArgs(text, "var");
    if alias.Some? then
      var args := Split(alias.value, ',');
      var direct := Resolve(theme, Strip(args[0]), seen);
      if direct.Some? then direct
      else if |args| > 1 then
        FallbackIsShorter(alias.value);
        Value(theme, Join(args[1..], ','), seen)
      else None
    else
      var mix := CallArgs(text, "color-mix");
      if mix.Some? then MixValue(theme, mix.value, seen) else theme.literal(text)
  }

  /** `_mix`. */
  function MixValue(theme: Theme, args: string, seen: set<string>): Option<Paint>
    decreases |theme.declarations.Keys - seen|, |args|, 3
  {
    var parts := Split(args, ',');
    if |parts| != 3 || !InColorSpace(Strip(parts[0])) then None
    else
      PartIsShorter(args, ',', 0, "", 1);
      PartIsShorter(args, ',', 0, "", 2);
      var first, second := Operand(theme, Strip(parts[1]), seen), Operand(theme, Strip(parts[2]), seen);
      if first.None? || second.None? then None
      else
        var w := Weights(WeightOf(theme, Strip(parts[1])), WeightOf(theme, Strip(parts[2])));
        if w.None? then None else Some(Mix(first.value, w.value.0, second.value, w.value.1))
  }

  function WeightOf(theme: Theme, operand: string): Option<real> {
    var percent := TrailingPercent(operand);
    if percent.Some? then Some(theme.numeral(percent.value.1) / 100.0) else None
  }

  /** The colour of `_mix_operand`. */
  function Operand(theme: Theme, operand: string, seen: set<string>): Option<Paint>
    decreases |theme.declarations.Keys - seen|, |operand|, 2
  {
    var percent := TrailingPercent(operand);
    Value(theme, if percent.Some? then Strip(operand[..percent.value.0]) else operand, seen)
  }

  // ------------------------------------------------------------------ what declarations mean

  /** A text that begins and ends in other characters than white space. */
  predicate Trim(s: string) { s != "" && !IsSpace(s[0]) && !IsSpace(s[|s| - 1]) }

  lemma TrimStays(s: string)
    requires Trim(s)
    ensures Strip(s) == s
  {
  }

  /** A text that `split_top_level` takes as one part. */
  predicate Whole(s: string) { Unsplit(s, ',', 0) && Depth(s, 0) == 0 }

  function Call(name: string, args: string): string { name + "(" + args + ")" }

  lemma CallIsRead(name: string, args: string)
    requires name != "" && !IsSpace(name[0])
    ensures Trim(Call(name, args)) && CallArgs(Call(name, args), name) == Some(args)
  {
    var text := Call(name, args);
    assert text[|name| + 1..|text| - 1] == args;
  }

  lemma WholeFirst(first: string, rest: string)
    requires Whole(first)
    ensures Split(first, ',') == [first]
    ensures Split(first + "," + rest, ',') == [first] + Split(rest, ',')
  {
    SplitSkips(first, "", ',', 0, "");
    assert first + "" == first && "" + first == first;
    SplitSkips(first, "," + rest, ',', 0, "");
    assert first + "," + rest == first + ("," + rest);
    assert ("," + rest)[1..] == rest;
  }

  /** `var(name)` is what the name resolves to; `var(name,fallback)` falls back exactly when
      the name does not resolve. */
  lemma AliasMeaning(theme: Theme, name: string, fallback: string, seen: set<string>)
    requires Trim(name) && Whole(name)
    ensures Value(theme, Call("var", name), seen) == Resolve(theme, name, seen)
    ensures Value(theme, Call("var", name + "," + fallback), seen) ==
              if Resolve(theme, name, seen).Some? then Resolve(theme, name, seen) else Value(theme, fallback, seen)
  {
    hide Resolve, MixValue, Split, CallArgs, Strip, Call, Trim, Whole;
    TrimStays(name);
    WholeFirst(name, fallback);
    CallIsRead("var", name);
    TrimStays(Call("var", name));
    CallIsRead("var", name + "," + fallback);
    TrimStays(Call("var", name + "," + fallback));
    var rest := Split(fallback, ',');
    SplitIsFrom(fallback);
    SplitJoins(fallback, ',', 0, "");
    assert "" + fallback == fallback;
    assert ([name] + rest)[1..] == rest;
  }

  /** An operand `colour p%` has that colour and the weight p / 100; without a percentage it
      has no weight of its own. */
  lemma OperandMeaning(theme: Theme, colour: string, numeral: string, seen: set<string>)
    requires Trim(colour) && NumeralShape(numeral)
    ensures Operand(theme, colour + " " + numeral + "%", seen) == Value(theme, colour, seen)
    ensures WeightOf(theme, colour + " " + numeral + "%") == Some(theme.numeral(numeral) / 100.0)
    ensures colour[|colour| - 1] != '%' ==> Operand(theme, colour, seen) == Value(theme, colour, seen) && WeightOf(theme, colour).None?
  {
    hide Value, Strip, TrailingPercent, NumeralShape;
    var operand := colour + " " + numeral + "%";
    PrintedPercent(colour, numeral);
    if colour[|colour| - 1] != '%' { NoPercent(colour); }
    assert operand[..|colour|] == colour;
    TrimStays(colour);
  }

  /** The trailing percentage of a printed operand is the numeral. */
  lemma PrintedPercent(colour: string, numeral: string)
    requires NumeralShape(numeral)
    ensures TrailingPercent(colour + " " + numeral + "%") == Some((|colour|, numeral))
  {
    hide NumeralShape, LastSpace;
    var operand := colour + " " + numeral + "%";
    NumeralHasNoSpace(numeral);
    assert operand == colour + " " + (numeral + "%");
    LastSpaceAt(colour, numeral + "%");
    assert operand[|colour| + 1..|operand| - 1] == numeral;
  }

  lemma NoPercent(operand: string)
    requires operand != "" && operand[|operand| - 1] != '%'
    ensures TrailingPercent(operand).None?
  {
    hide LastSpace, NumeralShape;
  }

  lemma NumeralHasNoSpace(numeral: string)
    requires NumeralShape(numeral)
    ensures forall i :: 0 <= i < |numeral| ==> !IsSpace(numeral[i])
  {
    var digits := if numeral[0] == '-' then numeral[1..] else numeral;
    forall i | 0 <= i < |numeral| ensures !IsSpace(numeral[i]) {
      if numeral[0] == '-' {
        if i > 0 { assert numeral[i] == digits[i - 1]; }
      } else {
        assert numeral[i] == digits[i];
      }
    }
  }

  lemma {:induction false} LastSpaceAt(front: string, tail: string)
    requires forall i :: 0 <= i < |tail| ==> !IsSpace(tail[i])
    ensures LastSpace(front + " " + tail) == |front|
    decreases |tail|
  {
    var s := front + " " + tail;
    if tail != "" {
      assert s[..|s| - 1] == front + " " + tail[..|tail| - 1];
      LastSpaceAt(front, tail[..|tail| - 1]);
    }
  }

  /** `color-mix(in space, x, y)` mixes its two operands with their own weights. */
  lemma MixMeaning(theme: Theme, space: string, x: string, y: string, seen: set<string>)
    requires Whole(space) && InColorSpace(Strip(space)) && Whole(x) && Whole(y)
    ensures var first, second := Operand(theme, Strip(x), seen), Operand(theme, Strip(y), seen);
            var w := Weights(WeightOf(theme, Strip(x)), WeightOf(theme, Strip(y)));
            Value(theme, Call("color-mix", space + "," + x + "," + y), seen) ==
              if first.Some? && second.Some? && w.Some? then Some(Mix(first.value, w.value.0, second.value, w.value.1)) else None
  {
    hide Operand, Resolve, Split, CallArgs, Strip, Call, Trim, Whole, Weights, WeightOf, Mix, InColorSpace;
    var args := space + "," + x + "," + y;
    assert args == space + "," + (x + "," + y);
    WholeFirst(space, x + "," + y);
    WholeFirst(x, y);
    WholeFirst(y, "");
    assert Split(args, ',') == [space] + ([x] + [y]);
    assert [space] + ([x] + [y]) == [space, x, y];
    CallIsRead("color-mix", args);
    TrimStays(Call("color-mix", args));
    NotACall(args);
  }

  lemma NotACall(args: string)
    ensures CallArgs(Call("color-mix", args), "var").None?
  {
    var text := Call("color-mix", args);
    assert text[0] == 'c';
    assert ("var" + "(")[0] == 'v';
  }

  // ------------------------------------------------------------------ leaves

  /** A text that resolution hands to one of the two readers. */
  datatype Leaf = Literal(text: string) | Percentage(text: string)

  /** The leaves of a value, whatever its names resolve to. */
  function Leaves(value: string): set<Leaf>
    decreases |value|, 1
  {
    var text := Strip(value);
    var alias := CallArgs(text, "var");
    if alias.Some? then
      var args := Split(alias.value, ',');
      if |args| > 1 then
        FallbackIsShorter(alias.value);
        Leaves(Join(args[1..], ','))
      else {}
    else
      var mix := CallArgs(text, "color-mix");
      if mix.Some? then MixLeaves(mix.value) else {Literal(text)}
  }

  function MixLeaves(args: string): set<Leaf>
    decreases |args|, 3
  {
    var parts := Split(args, ',');
    if |parts| != 3 then {}
    else
      PartIsShorter(args, ',', 0, "", 1);
      PartIsShorter(args, ',', 0, "", 2);
      OperandLeaves(Strip(parts[1])) + OperandLeaves(Strip(parts[2]))
  }

  function OperandLeaves(operand: string): set<Leaf>
    decreases |operand|, 2
  {
    var percent := TrailingPercent(operand);
    if percent.Some? then {Percentage(percent.value.1)} + Leaves(Strip(operand[..percent.value.0])) else Leaves(operand)
  }

  /** `part` is a stretch of `whole`. */
  ghost predicate PartOf(part: string, whole: string) {
    exists i, j :: 0 <= i <= j <= |whole| && whole[i..j] == part
  }

  lemma PartTwice(a: string, b: string, c: string)
    requires PartOf(a, b) && PartOf(b, c)
    ensures PartOf(a, c)
  {
    var i, j :| 0 <= i <= j <= |b| && b[i..j] == a;
    var k, l :| 0 <= k <= l <= |c| && c[k..l] == b;
    forall m | 0 <= m < j - i ensures c[k + i..k + j][m] == a[m] { assert c[k..l][i + m] == c[k + i + m]; }
    assert c[k + i..k + j] == a;
  }

  lemma SliceIsPart(s: string, i: nat, j: nat)
    requires i <= j <= |s|
    ensures PartOf(s[i..j], s)
  {
  }

  lemma {:induction false} StripLeftIsPart(s: string)
    ensures PartOf(Lists.StripLeft(s, IsSpace), s)
    decreases |s|
  {
    if s != "" && IsSpace(s[0]) {
      StripLeftIsPart(s[1..]);
      SliceIsPart(s, 1, |s|);
      assert s[1..|s|] == s[1..];
      PartTwice(Lists.StripLeft(s[1..], IsSpace), s[1..], s);
    } else {
      assert s[0..|s|] == s;
    }
  }

  lemma {:induction false} StripRightIsPart(s: string)
    ensures PartOf(Lists.StripRight(s, IsSpace), s)
    decreases |s|
  {
    if s != "" && IsSpace(s[|s| - 1]) {
      StripRightIsPart(s[..|s| - 1]);
      SliceIsPart(s, 0, |s| - 1);
      assert s[0..|s| - 1] == s[..|s| - 1];
      PartTwice(Lists.StripRight(s[..|s| - 1], IsSpace), s[..|s| - 1], s);
    } else {
      assert s[0..|s|] == s;
    }
  }

  lemma StripIsPart(s: string)
    ensures PartOf(Strip(s), s)
  {
    var left := Lists.StripLeft(s, IsSpace);
    StripLeftIsPart(s);
    StripRightIsPart(left);
    PartTwice(Strip(s), left, s);
  }

  lemma {:induction false} SplitIsParts(s: string, separator: char, depth: int, current: string, k: nat)
    requires k < |SplitFrom(s, separator, depth, current)|
    ensures PartOf(SplitFrom(s, separator, depth, current)[k], current + s)
    decreases |s|
  {
    var whole := current + s;
    if s == "" {
      assert whole[0..|whole|] == current;
    } else {
      var d := DepthAfter(depth, s[0]);
      if s[0] == separator && d == 0 {
        if k == 0 {
          assert whole[0..|current|] == current;
        } else {
          SplitIsParts(s[1..], separator, d, "", k - 1);
          assert "" + s[1..] == s[1..] && whole[|current| + 1..|whole|] == s[1..];
          PartTwice(SplitFrom(s[1..], separator, d, "")[k - 1], s[1..], whole);
        }
      } else {
        SplitIsParts(s[1..], separator, d, current + [s[0]], k);
        assert current + [s[0]] + s[1..] == whole;
      }
    }
  }

  lemma PartOfSplit(s: string, k: nat)
    requires k < |Split(s, ',')|
    ensures PartOf(Strip(Split(s, ',')[k]), s)
  {
    SplitIsParts(s, ',', 0, "", k);
    assert "" + s == s;
    StripIsPart(Split(s, ',')[k]);
    PartTwice(Strip(Split(s, ',')[k]), Split(s, ',')[k], s);
  }

  lemma ArgsArePart(text: string, name: string)
    requires CallArgs(text, name).Some?
    ensures PartOf(CallArgs(text, name).value, text)
  {
    SliceIsPart(text, |name| + 1, |text| - 1);
  }

  lemma FallbackIsPart(args: string)
    requires |Split(args, ',')| > 1
    ensures PartOf(Join(Split(args, ',')[1..], ','), args)
  {
    SplitJoins(args, ',', 0, "");
    var parts := Split(args, ',');
    JoinUnfolds(parts[0], parts[1..], ',');
    assert [parts[0]] + parts[1..] == parts;
    assert "" + args == args;
    assert args[|parts[0]| + 1..|args|] == Join(parts[1..], ',');
  }

  /** Every leaf is a stretch of the value. */
  lemma {:induction false} LeavesOccur(value: string, leaf: Leaf)
    requires leaf in Leaves(value)
    ensures PartOf(leaf.text, value)
    decreases |value|, 1
  {
    hide Split, CallArgs, Strip, PartOf;
    var text := Strip(value);
    StripIsPart(value);
    var alias, mix := CallArgs(text, "var"), CallArgs(text, "color-mix");
    if alias.Some? {
      var args := alias.value;
      ArgsArePart(text, "var");
      PartTwice(args, text, value);
      FallbackIsShorter(args);
      FallbackIsPart(args);
      LeavesOccur(Join(Split(args, ',')[1..], ','), leaf);
      PartTwice(leaf.text, Join(Split(args, ',')[1..], ','), args);
      PartTwice(leaf.text, args, value);
    } else if mix.Some? {
      ArgsArePart(text, "color-mix");
      PartTwice(mix.value, text, value);
      MixLeavesOccur(mix.value, leaf);
      PartTwice(leaf.text, mix.value, value);
    }
  }

  lemma {:induction false} MixLeavesOccur(args: string, leaf: Leaf)
    requires leaf in MixLeaves(args)
    ensures PartOf(leaf.text, args)
    decreases |args|, 3
  {
    hide Split, Strip, PartOf, OperandLeaves;
    SplitIsFrom(args);
    PartIsShorter(args, ',', 0, "", 1);
    PartIsShorter(args, ',', 0, "", 2);
    var k := if leaf in OperandLeaves(Strip(Split(args, ',')[1])) then 1 else 2;
    OperandLeavesOccur(Strip(Split(args, ',')[k]), leaf);
    PartOfSplit(args, k);
    PartTwice(leaf.text, Strip(Split(args, ',')[k]), args);
  }

  lemma {:induction false} OperandLeavesOccur(operand: string, leaf: Leaf)
    requires leaf in OperandLeaves(operand)
    ensures PartOf(leaf.text, operand)
    decreases |operand|, 2
  {
    hide Strip, PartOf, Leaves;
    var percent := TrailingPercent(operand);
    if percent.None? {
      LeavesOccur(operand, leaf);
    } else if leaf == Percentage(percent.value.1) {
      SliceIsPart(operand, percent.value.0 + 1, |operand| - 1);
    } else {
      var colour := operand[..percent.value.0];
      LeavesOccur(Strip(colour), leaf);
      StripIsPart(colour);
      SliceIsPart(operand, 0, percent.value.0);
      assert operand[0..percent.value.0] == colour;
      PartTwice(leaf.text, Strip(colour), colour);
      PartTwice(leaf.text, colour, operand);
    }
  }

  // ------------------------------------------------------------------ bounds

  /** The reader's answer for the leaf is in range. */
  ghost predicate LeafInRange(theme: Theme, leaf: Leaf) {
    match leaf
    case Literal(t) => Fine(theme.literal(t))
    case Percentage(n) => 0.0 <= theme.numeral(n) <= 100.0
  }

  ghost predicate AllInRange(theme: Theme, leaves: set<Leaf>) {
    forall leaf :: leaf in leaves ==> LeafInRange(theme, leaf)
  }

  /** The literals and percentages written in the declarations are in range. */
  ghost predicate Bounded(theme: Theme) {
    forall name :: name in theme.declarations ==> AllInRange(theme, Leaves(theme.declarations[name]))
  }

  ghost predicate Fine(p: Option<Paint>) { p.Some? ==> InRange(p.value) }

  lemma {:induction false} ResolveInRange(theme: Theme, name: string, seen: set<string>)
    requires Bounded(theme)
    ensures Fine(Resolve(theme, name, seen))
    decreases |theme.declarations.Keys - seen|, 0, 0
  {
    hide Value, Fine, AllInRange;
    assert Fine(None) by { NoneIsFine(); }
    if name !in seen && name in theme.declarations {
      FewerUnseen(theme.declarations.Keys, seen, name);
      ValueInRange(theme, theme.declarations[name], seen + {name});
    }
  }

  lemma NoneIsFine()
    ensures Fine(None)
  {
  }

  lemma {:induction false} ValueInRange(theme: Theme, value: string, seen: set<string>)
    requires Bounded(theme) && AllInRange(theme, Leaves(value))
    ensures Fine(Value(theme, value, seen))
    decreases |theme.declarations.Keys - seen|, |value|, 1
  {
    hide Resolve, Split, CallArgs, Strip, MixValue, MixLeaves, Fine, Bounded;
    assert Fine(None) by { NoneIsFine(); }
    var text := Strip(value);
    var alias, mix := CallArgs(text, "var"), CallArgs(text, "color-mix");
    if alias.Some? {
      var args := Split(alias.value, ',');
      ResolveInRange(theme, Strip(args[0]), seen);
      if |args| > 1 {
        FallbackIsShorter(alias.value);
        ValueInRange(theme, Join(args[1..], ','), seen);
      }
    } else if mix.Some? {
      MixInRangeToo(theme, mix.value, seen);
    } else {
      assert LeafInRange(theme, Literal(text));
    }
  }

  lemma {:induction false} MixInRangeToo(theme: Theme, args: string, seen: set<string>)
    requires Bounded(theme) && AllInRange(theme, MixLeaves(args))
    ensures Fine(MixValue(theme, args, seen))
    decreases |theme.declarations.Keys - seen|, |args|, 3
  {
    hide Split, Strip, Weights, WeightOf, Mix, InRange, Operand, OperandLeaves, Bounded, LeafInRange;
    var parts := Split(args, ',');
    if |parts| == 3 {
      SplitIsFrom(args);
      PartIsShorter(args, ',', 0, "", 1);
      PartIsShorter(args, ',', 0, "", 2);
      var p, q := Strip(parts[1]), Strip(parts[2]);
      OperandInRange(theme, p, seen);
      OperandInRange(theme, q, seen);
      WeightInUnit(theme, p);
      WeightInUnit(theme, q);
      WeightsAreNormal(WeightOf(theme, p), WeightOf(theme, q));
      var first, second, w := Operand(theme, p, seen), Operand(theme, q, seen), Weights(WeightOf(theme, p), WeightOf(theme, q));
      if first.Some? && second.Some? && w.Some? {
        MixInRange(first.value, w.value.0, second.value, w.value.1);
      }
    }
  }

  /** A resolved mix paints, over any opaque backdrop, as the mix of its painted operands. */
  lemma ResolvedMixPaints(theme: Theme, args: string, seen: set<string>, backdrop: Rgb)
    requires Bounded(theme) && AllInRange(theme, MixLeaves(args)) && MixValue(theme, args, seen).Some?
    ensures var parts := Split(args, ',');
            |parts| == 3 &&
            var p, q := Strip(parts[1]), Strip(parts[2]);
            var a, b, w := Operand(theme, p, seen), Operand(theme, q, seen), Weights(WeightOf(theme, p), WeightOf(theme, q));
            a.Some? && b.Some? && w.Some? &&
            var mixed := MixValue(theme, args, seen).value;
            Composite(mixed.color, mixed.alpha, backdrop) ==
              Weighted(Composite(a.value.color, a.value.alpha, backdrop), w.value.0, Composite(b.value.color, b.value.alpha, backdrop), w.value.1)
  {
    hide Operand, Split, Strip, Weights, WeightOf, Mix, Composite, Weighted, OperandLeaves, Bounded, LeafInRange;
    var parts := Split(args, ',');
    var p, q := Strip(parts[1]), Strip(parts[2]);
    OperandInRange(theme, p, seen);
    OperandInRange(theme, q, seen);
    WeightInUnit(theme, p);
    WeightInUnit(theme, q);
    WeightsAreNormal(WeightOf(theme, p), WeightOf(theme, q));
    var w := Weights(WeightOf(theme, p), WeightOf(theme, q));
    PaintingCommutes(Operand(theme, p, seen).value, w.value.0, Operand(theme, q, seen).value, w.value.1, backdrop);
  }

  lemma SplitIsFrom(args: string)
    ensures Split(args, ',') == SplitFrom(args, ',', 0, "")
  {
  }

  lemma WeightInUnit(theme: Theme, operand: string)
    requires AllInRange(theme, OperandLeaves(operand))
    ensures var w := WeightOf(theme, operand); w.Some? ==> 0.0 <= w.value <= 1.0
  {
    hide Leaves, Fine;
    var percent := TrailingPercent(operand);
    if percent.Some? { assert LeafInRange(theme, Percentage(percent.value.1)); }
  }

  lemma {:induction false} OperandInRange(theme: Theme, operand: string, seen: set<string>)
    requires Bounded(theme) && AllInRange(theme, OperandLeaves(operand))
    ensures Fine(Operand(theme, operand, seen))
    decreases |theme.declarations.Keys - seen|, |operand|, 2
  {
    hide Value, Fine, Leaves, Bounded, LeafInRange;
    var percent := TrailingPercent(operand);
    ValueInRange(theme, if percent.Some? then Strip(operand[..percent.value.0]) else operand, seen);
  }

  lemma {:induction false} FlatIsWhole(s: string)
    requires forall i :: 0 <= i < |s| ==> s[i] != '(' && s[i] != ')' && s[i] != ','
    ensures Whole(s)
    decreases |s|
  {
    if s != "" { FlatIsWhole(s[1..]); }
  }

  /** The leaves of a mix of two colours, the first with a percentage. */
  lemma MixOfLiterals(space: string, x: string, numeral: string, y: string)
    requires Whole(space) && Whole(x + " " + numeral + "%") && Whole(y) && NumeralShape(numeral)
    requires LiteralText(x) && LiteralText(y) && y[|y| - 1] != '%'
    ensures Leaves(Call("color-mix", space + "," + (x + " " + numeral + "%") + "," + y)) == {Percentage(numeral), Literal(x), Literal(y)}
  {
    hide Split, Strip, CallArgs, TrailingPercent, Whole, NumeralShape, Call, Trim;
    var operand := x + " " + numeral + "%";
    var args := space + "," + operand + "," + y;
    assert args == space + "," + (operand + "," + y);
    WholeFirst(space, operand + "," + y);
    WholeFirst(operand, y);
    WholeFirst(y, "");
    assert Split(args, ',') == [space] + ([operand] + [y]);
    assert [space] + ([operand] + [y]) == [space, operand, y];
    CallIsRead("color-mix", args);
    TrimStays(Call("color-mix", args));
    NotACall(args);
    LiteralIsTrim(x);
    LiteralIsTrim(y);
    OperandIsTrim(x, numeral);
    TrimStays(operand);
    TrimStays(x);
    TrimStays(y);
    PrintedPercent(x, numeral);
    NoPercent(y);
    assert operand[..|x|] == x;
    assert Leaves(x) == {Literal(x)} && Leaves(y) == {Literal(y)};
    assert OperandLeaves(operand) == {Percentage(numeral)} + Leaves(x);
    assert OperandLeaves(y) == Leaves(y);
    assert MixLeaves(args) == OperandLeaves(operand) + OperandLeaves(y);
    assert Leaves(Call("color-mix", args)) == MixLeaves(args);
  }

  lemma OperandIsTrim(x: string, numeral: string)
    requires Trim(x)
    ensures Trim(x + " " + numeral + "%")
  {
  }

  /** A text that is no call. */
  predicate LiteralText(s: string) { Trim(s) && CallArgs(s, "var").None? && CallArgs(s, "color-mix").None? }

  lemma LiteralIsTrim(s: string)
    requires LiteralText(s)
    ensures Trim(s) && CallArgs(s, "var").None? && CallArgs(s, "color-mix").None?
  {
  }

  /** Readers may answer out of range on texts that are not written in the declarations, as
      `float` and `parse_color` do. */
  const SAMPLE: Theme := Theme(
    map["--ink" := Call("color-mix", "in srgb" + "," + ("#000" + " " + "40" + "%") + "," + "#fff")],
    s => if s == "#000" then Some(Paint(Rgb(0.0, 0.0, 0.0), 1.0))
         else if s == "#fff" then Some(Paint(Rgb(255.0, 255.0, 255.0), 1.0))
         else if s == "rgb(300,0,0)" then Some(Paint(Rgb(300.0, 0.0, 0.0), 1.0)) else None,
    s => if s == "40" then 40.0 else 150.0)

  lemma SampleLeaves()
    ensures Leaves(Call("color-mix", "in srgb" + "," + ("#000" + " " + "40" + "%") + "," + "#fff")) ==
              {Percentage("40"), Literal("#000"), Literal("#fff")}
  {
    hide Leaves, Call, Whole;
    FlatIsWhole("in srgb");
    FlatIsWhole("#000" + " " + "40" + "%");
    FlatIsWhole("#fff");
    MixOfLiterals("in srgb", "#000", "40", "#fff");
  }

  lemma SampleIsBounded()
    ensures Bounded(SAMPLE) && SAMPLE.numeral("150") == 150.0 && !Fine(SAMPLE.literal("rgb(300,0,0)"))
  {
    hide Leaves, Call;
    SampleLeaves();
    assert "150" != "40";
    assert "rgb(300,0,0)" != "#000" && "rgb(300,0,0)" != "#fff";
  }

  // ------------------------------------------------------------------ opaque resolution

  /** `resolve`: a nearly opaque paint is taken as opaque, another is painted on the backdrop. */
  function ResolveOpaque(theme: Theme, name: string, backdrop: Option<Rgb>): Option<Rgb> {
    var p := Resolve(theme, name, {});
    if p.None? then None
    else if p.value.alpha >= 0.999 then Some(p.value.color)
    else if backdrop.None? then None
    else Some(Composite(p.value.color, p.value.alpha, backdrop.value))
  }

  /** What `resolve` returns is in gamut and within 0.255 per channel of true source-over. */
  lemma ResolvedIsPainted(theme: Theme, name: string, backdrop: Rgb)
    requires Bounded(theme) && InGamut(backdrop) && ResolveOpaque(theme, name, Some(backdrop)).Some?
    ensures var c := ResolveOpaque(theme, name, Some(backdrop)).value;
            var p := Resolve(theme, name, {}).value;
            var painted := Composite(p.color, p.alpha, backdrop);
            InGamut(c) && Distance(c.r, painted.r) <= 0.255 && Distance(c.g, painted.g) <= 0.255 && Distance(c.b, painted.b) <= 0.255
  {
    hide Resolve, Over;
    ResolveInRange(theme, name, {});
    var p := Resolve(theme, name, {}).value;
    if p.alpha >= 0.999 {
      OverNear(p.color.r, p.alpha, backdrop.r);
      OverNear(p.color.g, p.alpha, backdrop.g);
      OverNear(p.color.b, p.alpha, backdrop.b);
    } else {
      CompositeInRange(p, backdrop);
    }
  }

  /** A measured pair of resolved roles has a contrast in [1, 21], the same either way round. */
  lemma MeasuredContrastRange(theme: Theme, power: real -> real, ink: string, plane: string, page: Rgb)
    requires Bounded(theme) && PowerLike(power) && InGamut(page)
    requires ResolveOpaque(theme, plane, Some(page)).Some?
    requires ResolveOpaque(theme, ink, ResolveOpaque(theme, plane, Some(page))).Some?
    ensures var backdrop := ResolveOpaque(theme, plane, Some(page)).value;
            var color := ResolveOpaque(theme, ink, Some(backdrop)).value;
            Luminance(power, color) > -0.05 && Luminance(power, backdrop) > -0.05 &&
            1.0 <= Contrast(power, color, backdrop) <= 21.0 && Contrast(power, color, backdrop) == Contrast(power, backdrop, color)
  {
    hide ResolveOpaque, Luminance, Contrast;
    ResolvedIsPainted(theme, plane, page);
    var backdrop := ResolveOpaque(theme, plane, Some(page)).value;
    ResolvedIsPainted(theme, ink, backdrop);
    ContrastRange(power, ResolveOpaque(theme, ink, Some(backdrop)).value, backdrop);
  }

  // ------------------------------------------------------------------ cycles

  /** Every name of the set is declared as a plain `var()` of another name of the set. */
  ghost predicate AliasCycle(theme: Theme, names: set<string>) {
    && names <= theme.declarations.Keys
    && forall n {:trigger IsAliasInto(theme.declarations[n], names)} :: n in names ==> IsAliasInto(theme.declarations[n], names)
  }

  ghost predicate IsAliasInto(value: string, names: set<string>) {
    var alias := CallArgs(Strip(value), "var");
    alias.Some? && |Split(alias.value, ',')| == 1 && Strip(Split(alias.value, ',')[0]) in names
  }

  /** Names that only alias each other resolve to nothing. */
  lemma {:induction false} CyclesDoNotResolve(theme: Theme, names: set<string>, name: string, seen: set<string>)
    requires AliasCycle(theme, names) && name in names
    ensures Resolve(theme, name, seen).None?
    decreases |theme.declarations.Keys - seen|
  {
    hide CallArgs, Strip, Split;
    if name !in seen {
      FewerUnseen(theme.declarations.Keys, seen, name);
      var alias := CallArgs(Strip(theme.declarations[name]), "var");
      assert IsAliasInto(theme.declarations[name], names);
      CyclesDoNotResolve(theme, names, Strip(Split(alias.value, ',')[0]), seen + {name});
    }
  }
}
