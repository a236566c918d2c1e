/** Names bound by destructuring patterns, read off flat tokens
    (scripts/check_frontend_boundaries.py). Unlike the constant evaluator, these scans look
    at token values only, never at token kinds. */
module Patterns {
  import opened Text
  import opened Tokens
  import opened ConstEval

  /** The lenient nesting step: a closer that does not match is passed over. */
  function Nest(stack: seq<Text>, v: Text): seq<Text> {
    if Opening(v) then stack + [v]
    else if Closes(stack, v) then stack[..|stack| - 1]
    else stack
  }

  function NestAll(stack: seq<Text>, ts: seq<Token>): seq<Text> {
    if ts == [] then stack else Nest(NestAll(stack, ts[..|ts| - 1]), ts[|ts| - 1].value)
  }

  // ------------------------------------------------------------------ splitting

  /** `_split_top_level_tokens` resumed with a nesting and a current entry. */
  function SplitFrom(ts: seq<Token>, delimiter: Text, nesting: seq<Text>, current: seq<Token>): (r: seq<seq<Token>>)
    ensures |r| > 0
    ensures forall i :: 0 <= i < |r| ==> |r[i]| <= |current| + |ts|
  {
    if ts == [] then [current]
    else
      var nested := Nest(nesting, ts[0].value);
      if ts[0].value == delimiter && nested == [] then [current] + SplitFrom(ts[1..], delimiter, nested, [])
      else SplitFrom(ts[1..], delimiter, nested, current + [ts[0]])
  }

  function Split(ts: seq<Token>, delimiter: Text): (r: seq<seq<Token>>)
    ensures forall i :: 0 <= i < |r| ==> |r[i]| <= |ts|
  {
    SplitFrom(ts, delimiter, [], [])
  }

  method SplitTopLevelTokens(ts: seq<Token>, delimiter: Text) returns (entries: seq<seq<Token>>)
    ensures entries == Split(ts, delimiter)
  {
    hide Opening, Closing, OpenerOf;
    entries := [];
    var current: seq<Token> := [];
    var nesting: seq<Text> := [];
    for i := 0 to |ts|
      invariant entries + SplitFrom(ts[i..], delimiter, nesting, current) == Split(ts, delimiter)
    {
      var token := ts[i];
      assert ts[i..][0] == token && ts[i..][1..] == ts[i + 1..];
      if Opening(token.value) {
        nesting := nesting + [token.value];
      } else if Closes(nesting, token.value) {
        nesting := nesting[..|nesting| - 1];
      }
      if token.value == delimiter && nesting == [] {
        entries := entries + [current];
        current := [];
      } else {
        current := current + [token];
      }
    }
    entries := entries + [current];
  }

  /** `_top_level_token_index` resumed at `i`. */
  function TopIndexFrom(ts: seq<Token>, value: Text, i: nat, nesting: seq<Text>): (r: Option<nat>)
    requires i <= |ts|
    ensures r.Some? ==> i <= r.value < |ts|
    decreases |ts| - i
  {
    if i == |ts| then None
    else if Opening(ts[i].value) || Closes(nesting, ts[i].value) then TopIndexFrom(ts, value, i + 1, Nest(nesting, ts[i].value))
    else if nesting == [] && ts[i].value == value then Some(i)
    else TopIndexFrom(ts, value, i + 1, nesting)
  }

  function TopIndex(ts: seq<Token>, value: Text): (r: Option<nat>)
    ensures r.Some? ==> r.value < |ts|
  {
    TopIndexFrom(ts, value, 0, [])
  }

  method TopLevelTokenIndex(ts: seq<Token>, value: Text) returns (r: Option<nat>)
    ensures r == TopIndex(ts, value)
  {
    var nesting: seq<Text> := [];
    for i := 0 to |ts|
      invariant TopIndexFrom(ts, value, i, nesting) == TopIndex(ts, value)
    {
      if Opening(ts[i].value) {
        nesting := nesting + [ts[i].value];
      } else if Closes(nesting, ts[i].value) {
        nesting := nesting[..|nesting| - 1];
      } else if nesting == [] && ts[i].value == value {
        return Some(i);
      }
    }
    return None;
  }

  // ------------------------------------------------------------------ the scan

  predicate Modifier(v: Text) {
    v == Lit("override") || v == Lit("private") || v == Lit("protected") || v == Lit("public") || v == Lit("readonly")
  }

  function SkipModifiers(ts: seq<Token>, i: nat): (r: nat)
    requires i <= |ts|
    ensures i <= r <= |ts|
    decreases |ts| - i
  {
    if i < |ts| && (ts[i].value == [DOT] || Modifier(ts[i].value)) then SkipModifiers(ts, i + 1) else i
  }

  /** One past the closer of the bracket opened before `i`, counting only its own kind. */
  function CloseAfter(ts: seq<Token>, i: nat, depth: nat, opener: Text, closer: Text): (r: Option<nat>)
    requires i <= |ts|
    ensures r.Some? ==> i <= r.value <= |ts|
    decreases |ts| - i
  {
    if depth == 0 then Some(i)
    else if i == |ts| then None
    else CloseAfter(ts, i + 1, if ts[i].value == opener then depth + 1 else if ts[i].value == closer then depth - 1 else depth, opener, closer)
  }

  function SkipDots(ts: seq<Token>): (r: seq<Token>)
    ensures |r| <= |ts|
  {
    if ts != [] && ts[0].value == [DOT] then SkipDots(ts[1..]) else ts
  }

  /** The part of an entry that binds: without its dots, default, and (in objects) key. */
  function BindingPart(entry: seq<Token>, keyed: bool): (r: seq<Token>)
    ensures |r| <= |entry|
  {
    var stripped := SkipDots(entry);
    var equals := TopIndex(stripped, [EQUALS]);
    var part := if equals.Some? then stripped[..equals.value] else stripped;
    var colon := TopIndex(part, [COLON]);
    if keyed && colon.Some? then part[colon.value + 1..] else part
  }

  /** `_binding_names_in_pattern`. */
  function BindingNames(ts: seq<Token>, bindings: set<Text>): set<Text>
    decreases |ts|
  {
    var cursor := SkipModifiers(ts, 0);
    if cursor == |ts| then {}
    else if ts[cursor].kind.Identifier? then {ts[cursor].value} * bindings
    else if ts[cursor].value != [LBRACE] && ts[cursor].value != [LBRACKET] then {}
    else
      var keyed := ts[cursor].value == [LBRACE];
      var close := CloseAfter(ts, cursor + 1, 1, ts[cursor].value, if keyed then [RBRACE] else [RBRACKET]);
      if close.None? then {}
      else
        CloseIsLater(ts, cursor + 1, 1, ts[cursor].value, if keyed then [RBRACE] else [RBRACKET]);
        EntryNames(Split(ts[cursor + 1..close.value - 1], [COMMA]), keyed, bindings, |ts|)
  }

  lemma CloseIsLater(ts: seq<Token>, i: nat, depth: nat, opener: Text, closer: Text)
    requires i <= |ts| && depth > 0
    ensures var r := CloseAfter(ts, i, depth, opener, closer); r.Some? ==> r.value > i
  {
  }

  function EntryNames(entries: seq<seq<Token>>, keyed: bool, bindings: set<Text>, size: nat): set<Text>
    requires forall i :: 0 <= i < |entries| ==> |entries[i]| < size
    decreases size, |entries|
  {
    if entries == [] then {}
    else
      var here := if SkipDots(entries[0]) == [] then {} else BindingNames(BindingPart(entries[0], keyed), bindings);
      here + EntryNames(entries[1..], keyed, bindings, size)
  }

  method BindingNamesInPattern(ts: seq<Token>, bindings: set<Text>) returns (rebound: set<Text>)
    ensures rebound == BindingNames(ts, bindings)
    decreases |ts|
  {
    hide Split, EntryNames, Modifier;
    var cursor := 0;
    while cursor < |ts| && (ts[cursor].value == [DOT] || Modifier(ts[cursor].value))
      invariant 0 <= cursor <= |ts| && SkipModifiers(ts, cursor) == SkipModifiers(ts, 0)
    {
      cursor := cursor + 1;
    }
    if cursor >= |ts| { return {}; }
    var first := ts[cursor];
    if first.kind.Identifier? { return {first.value} * bindings; }
    if first.value != [LBRACE] && first.value != [LBRACKET] { return {}; }

    var opener := first.value;
    var keyed := opener == [LBRACE];
    var closer := if keyed then [RBRACE] else [RBRACKET];
    var depth := 1;
    var closeIndex := cursor + 1;
    CloseIsLater(ts, closeIndex, 1, opener, closer);
    while closeIndex < |ts| && depth != 0
      invariant cursor + 1 <= closeIndex <= |ts| && depth >= 0
      invariant CloseAfter(ts, closeIndex, depth, opener, closer) == CloseAfter(ts, cursor + 1, 1, opener, closer)
    {
      var token := ts[closeIndex];
      if token.value == opener {
        depth := depth + 1;
      } else if token.value == closer {
        depth := depth - 1;
      }
      closeIndex := closeIndex + 1;
    }
    if depth != 0 { return {}; }

    var entries := SplitTopLevelTokens(ts[cursor + 1..closeIndex - 1], [COMMA]);
    rebound := BindingNamesInEntries(entries, keyed, bindings, |ts|);
  }

  /** The loop over the entries of one bracketed pattern. */
  method BindingNamesInEntries(entries: seq<seq<Token>>, keyed: bool, bindings: set<Text>, ghost size: nat) returns (rebound: set<Text>)
    requires forall i :: 0 <= i < |entries| ==> |entries[i]| < size
    ensures rebound == EntryNames(entries, keyed, bindings, size)
    decreases size, 0
  {
    hide BindingNames, BindingPart;
    rebound := {};
    for k := 0 to |entries|
      invariant rebound + EntryNames(entries[k..], keyed, bindings, size) == EntryNames(entries, keyed, bindings, size)
    {
      assert entries[k..][0] == entries[k] && entries[k..][1..] == entries[k + 1..];
      var nonempty, bindingPart := EntryBinding(entries[k], keyed);
      if !nonempty { continue; }
      var inner := BindingNamesInPattern(bindingPart, bindings);
      rebound := rebound + inner;
    }
  }

  /** Strips an entry of its dots, its default and (in objects) its key. */
  method EntryBinding(entry: seq<Token>, keyed: bool) returns (nonempty: bool, part: seq<Token>)
    ensures nonempty == (SkipDots(entry) != [])
    ensures nonempty ==> part == BindingPart(entry, keyed)
  {
    part := entry;
    while part != [] && part[0].value == [DOT]
      invariant SkipDots(part) == SkipDots(entry)
      decreases |part|
    {
      part := part[1..];
    }
    if part == [] { return false, []; }
    nonempty := true;
    var equalsIndex := TopLevelTokenIndex(part, [EQUALS]);
    if equalsIndex.Some? { part := part[..equalsIndex.value]; }
    if keyed {
      var colonIndex := TopLevelTokenIndex(part, [COLON]);
      if colonIndex.Some? { part := part[colonIndex.value + 1..]; }
    }
  }
}
