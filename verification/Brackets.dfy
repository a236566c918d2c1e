/** `_matching_token_pairs` (scripts/check_frontend_boundaries.py): one pass with a stack of
    open positions, against the reference definition that follows one opener at a time. */
module Brackets {
  import opened Text
  import opened Tokens
  import opened Patterns

  /** The closer of the opener at `i`, by counting depth from there. */
  function CloserOf(ts: seq<Token>, i: nat, opener: Text, closer: Text): Option<nat>
    requires i < |ts|
  {
    CloseAfter(ts, i + 1, 1, opener, closer)
  }

  /** The stack after `i` tokens: positions of openers, each waiting for its own depth. */
  ghost predicate Waiting(ts: seq<Token>, i: nat, opens: seq<nat>, opener: Text, closer: Text)
    requires i <= |ts|
  {
    && (forall j :: 0 <= j < |opens| ==> opens[j] < i && ts[opens[j]].value == opener)
    && (forall j, k :: 0 <= j < k < |opens| ==> opens[j] < opens[k])
    && (forall j :: 0 <= j < |opens| ==> CloserOf(ts, opens[j], opener, closer) == CloseAfter(ts, i, |opens| - j, opener, closer))
  }

  /** Every opener before `i` is paired with its own closer or still waits. */
  ghost predicate Paired(ts: seq<Token>, i: nat, opens: seq<nat>, forward: map<nat, nat>, opener: Text, closer: Text)
    requires i <= |ts|
  {
    && (forall o: nat :: o in forward ==> o < forward[o] < i && ts[o].value == opener && ts[forward[o]].value == closer)
    && (forall o: nat :: o in forward ==> CloserOf(ts, o, opener, closer) == Some(forward[o] + 1))
    && (forall o: nat :: o < i && ts[o].value == opener ==> o in forward || o in opens)
    && (forall j :: 0 <= j < |opens| ==> opens[j] !in forward)
  }

  ghost predicate Inverse(i: nat, forward: map<nat, nat>, reverse: map<nat, nat>) {
    && (forall o: nat :: o in forward ==> forward[o] in reverse && reverse[forward[o]] == o)
    && (forall c: nat :: c in reverse ==> c < i && reverse[c] in forward && forward[reverse[c]] == c)
  }

  lemma Push(ts: seq<Token>, i: nat, opens: seq<nat>, forward: map<nat, nat>, opener: Text, closer: Text)
    requires i < |ts| && ts[i].value == opener != closer
    requires Waiting(ts, i, opens, opener, closer) && Paired(ts, i, opens, forward, opener, closer)
    ensures Waiting(ts, i + 1, opens + [i], opener, closer) && Paired(ts, i + 1, opens + [i], forward, opener, closer)
  {
    hide Waiting, Paired;
    PushWaiting(ts, i, opens, opener, closer);
    PushPaired(ts, i, opens, forward, opener, closer);
  }

  lemma PushWaiting(ts: seq<Token>, i: nat, opens: seq<nat>, opener: Text, closer: Text)
    requires i < |ts| && ts[i].value == opener != closer && Waiting(ts, i, opens, opener, closer)
    ensures Waiting(ts, i + 1, opens + [i], opener, closer)
  {
  }

  lemma PushPaired(ts: seq<Token>, i: nat, opens: seq<nat>, forward: map<nat, nat>, opener: Text, closer: Text)
    requires i < |ts| && ts[i].value == opener && Paired(ts, i, opens, forward, opener, closer)
    ensures Paired(ts, i + 1, opens + [i], forward, opener, closer)
  {
    hide CloserOf;
    forall o: nat | o < i + 1 && ts[o].value == opener ensures o in forward || o in opens + [i] {
      if o == i { assert (opens + [i])[|opens|] == i; }
    }
  }

  lemma Pop(ts: seq<Token>, i: nat, opens: seq<nat>, forward: map<nat, nat>, opener: Text, closer: Text)
    requires i < |ts| && ts[i].value == closer != opener && opens != []
    requires Waiting(ts, i, opens, opener, closer) && Paired(ts, i, opens, forward, opener, closer)
    ensures Waiting(ts, i + 1, opens[..|opens| - 1], opener, closer)
    ensures Paired(ts, i + 1, opens[..|opens| - 1], forward[opens[|opens| - 1] := i], opener, closer)
  {
    hide Waiting, Paired, CloserOf;
    PopWaiting(ts, i, opens, opener, closer);
    LastCloses(ts, i, opens, opener, closer);
    PopPaired(ts, i, opens, forward, opener, closer);
  }

  lemma LastCloses(ts: seq<Token>, i: nat, opens: seq<nat>, opener: Text, closer: Text)
    requires i < |ts| && ts[i].value == closer != opener && opens != [] && Waiting(ts, i, opens, opener, closer)
    ensures opens[|opens| - 1] < i && ts[opens[|opens| - 1]].value == opener
    ensures CloserOf(ts, opens[|opens| - 1], opener, closer) == Some(i + 1)
    ensures forall j :: 0 <= j < |opens| - 1 ==> opens[j] != opens[|opens| - 1]
  {
    hide CloserOf;
    assert CloserOf(ts, opens[|opens| - 1], opener, closer) == CloseAfter(ts, i, 1, opener, closer);
    assert CloseAfter(ts, i, 1, opener, closer) == Some(i + 1);
  }

  lemma PopPaired(ts: seq<Token>, i: nat, opens: seq<nat>, forward: map<nat, nat>, opener: Text, closer: Text)
    requires i < |ts| && ts[i].value == closer && opens != [] && Paired(ts, i, opens, forward, opener, closer)
    requires opener != closer
    requires opens[|opens| - 1] < i && ts[opens[|opens| - 1]].value == opener
    requires CloserOf(ts, opens[|opens| - 1], opener, closer) == Some(i + 1)
    requires forall j :: 0 <= j < |opens| - 1 ==> opens[j] != opens[|opens| - 1]
    ensures Paired(ts, i + 1, opens[..|opens| - 1], forward[opens[|opens| - 1] := i], opener, closer)
  {
    hide CloserOf;
    var rest, start := opens[..|opens| - 1], opens[|opens| - 1];
    forall o: nat | o < i + 1 && ts[o].value == opener ensures o in forward[start := i] || o in rest {
      if o in opens {
        var j :| 0 <= j < |opens| && opens[j] == o;
        if j < |rest| { assert rest[j] == o; }
      }
    }
  }

  lemma PopWaiting(ts: seq<Token>, i: nat, opens: seq<nat>, opener: Text, closer: Text)
    requires i < |ts| && ts[i].value == closer != opener && opens != [] && Waiting(ts, i, opens, opener, closer)
    ensures Waiting(ts, i + 1, opens[..|opens| - 1], opener, closer)
  {
    hide CloserOf;
    var rest := opens[..|opens| - 1];
    forall j | 0 <= j < |rest| ensures CloserOf(ts, rest[j], opener, closer) == CloseAfter(ts, i + 1, |rest| - j, opener, closer) {
      assert CloserOf(ts, opens[j], opener, closer) == CloseAfter(ts, i, |opens| - j, opener, closer);
    }
  }

  lemma Skip(ts: seq<Token>, i: nat, opens: seq<nat>, forward: map<nat, nat>, opener: Text, closer: Text)
    requires i < |ts| && ts[i].value != opener && (ts[i].value == closer ==> opens == [])
    requires Waiting(ts, i, opens, opener, closer) && Paired(ts, i, opens, forward, opener, closer)
    ensures Waiting(ts, i + 1, opens, opener, closer) && Paired(ts, i + 1, opens, forward, opener, closer)
  {
    hide CloserOf;
    forall j | 0 <= j < |opens| ensures CloserOf(ts, opens[j], opener, closer) == CloseAfter(ts, i + 1, |opens| - j, opener, closer) {
      assert CloserOf(ts, opens[j], opener, closer) == CloseAfter(ts, i, |opens| - j, opener, closer);
    }
  }

  lemma InversePair(i: nat, forward: map<nat, nat>, reverse: map<nat, nat>, start: nat)
    requires Inverse(i, forward, reverse) && start !in forward
    ensures Inverse(i + 1, forward[start := i], reverse[i := start])
  {
  }

  /** `forward` pairs every opener with its own closer and nothing else; `reverse` is its inverse. */
  method MatchingTokenPairs(ts: seq<Token>, opener: Text, closer: Text) returns (forward: map<nat, nat>, reverse: map<nat, nat>)
    requires opener != closer
    ensures forall o: nat :: o in forward <==> o < |ts| && ts[o].value == opener && CloserOf(ts, o, opener, closer).Some?
    ensures forall o: nat :: o in forward ==> CloserOf(ts, o, opener, closer) == Some(forward[o] + 1)
    ensures forall o: nat :: o in forward ==> o < forward[o] < |ts| && ts[forward[o]].value == closer
    ensures Inverse(|ts|, forward, reverse)
  {
    hide CloserOf, Waiting, Paired, Inverse;
    var opens: seq<nat> := [];
    forward, reverse := map[], map[];
    Nothing(ts, opener, closer);
    for i := 0 to |ts|
      invariant Waiting(ts, i, opens, opener, closer) && Paired(ts, i, opens, forward, opener, closer)
      invariant Inverse(i, forward, reverse)
    {
      if ts[i].value == opener {
        Push(ts, i, opens, forward, opener, closer);
        InverseOn(i, forward, reverse);
        opens := opens + [i];
      } else if ts[i].value == closer && opens != [] {
        Pop(ts, i, opens, forward, opener, closer);
        LastIsOpen(ts, i, opens, forward, opener, closer);
        InversePair(i, forward, reverse, opens[|opens| - 1]);
        forward := forward[opens[|opens| - 1] := i];
        reverse := reverse[i := opens[|opens| - 1]];
        opens := opens[..|opens| - 1];
      } else {
        Skip(ts, i, opens, forward, opener, closer);
        InverseOn(i, forward, reverse);
      }
    }
    AtEnd(ts, opens, forward, opener, closer);
  }

  lemma Nothing(ts: seq<Token>, opener: Text, closer: Text)
    ensures Waiting(ts, 0, [], opener, closer) && Paired(ts, 0, [], map[], opener, closer) && Inverse(0, map[], map[])
  {
  }

  lemma InverseOn(i: nat, forward: map<nat, nat>, reverse: map<nat, nat>)
    requires Inverse(i, forward, reverse)
    ensures Inverse(i + 1, forward, reverse)
  {
  }

  lemma LastIsOpen(ts: seq<Token>, i: nat, opens: seq<nat>, forward: map<nat, nat>, opener: Text, closer: Text)
    requires i <= |ts| && opens != [] && Paired(ts, i, opens, forward, opener, closer)
    ensures opens[|opens| - 1] !in forward
  {
  }

  lemma AtEnd(ts: seq<Token>, opens: seq<nat>, forward: map<nat, nat>, opener: Text, closer: Text)
    requires Waiting(ts, |ts|, opens, opener, closer) && Paired(ts, |ts|, opens, forward, opener, closer)
    ensures forall o: nat :: o in forward <==> o < |ts| && ts[o].value == opener && CloserOf(ts, o, opener, closer).Some?
    ensures forall o: nat :: o in forward ==> CloserOf(ts, o, opener, closer) == Some(forward[o] + 1)
    ensures forall o: nat :: o in forward ==> o < forward[o] < |ts| && ts[forward[o]].value == closer
  {
    hide CloserOf;
    forall o: nat | o < |ts| && ts[o].value == opener && o !in forward ensures CloserOf(ts, o, opener, closer).None? {
      var j :| 0 <= j < |opens| && opens[j] == o;
    }
  }

  /** Paired brackets never cross. */
  lemma PairsNest(ts: seq<Token>, opener: Text, closer: Text, o: nat, p: nat)
    requires opener != closer && o < p < |ts| && ts[o].value == opener && ts[p].value == opener
    requires CloserOf(ts, o, opener, closer).Some? && CloserOf(ts, p, opener, closer).Some?
    ensures var c, d := CloserOf(ts, o, opener, closer).value, CloserOf(ts, p, opener, closer).value;
            c <= p || d < c
  {
    var c := CloserOf(ts, o, opener, closer).value;
    if c > p {
      ReachesInside(ts, o + 1, 1, p, opener, closer);
    }
  }

  /** Counting from an earlier opener arrives at a later one with some depth, and closes the
      later one first. */
  lemma {:induction false} ReachesInside(ts: seq<Token>, i: nat, depth: nat, p: nat, opener: Text, closer: Text)
    requires opener != closer && i <= p < |ts| && ts[p].value == opener && depth > 0
    requires CloseAfter(ts, i, depth, opener, closer).Some? && CloseAfter(ts, i, depth, opener, closer).value > p
    ensures CloserOf(ts, p, opener, closer).Some? ==> CloserOf(ts, p, opener, closer).value < CloseAfter(ts, i, depth, opener, closer).value
    decreases p - i
  {
    if i == p {
      LessDepthSooner(ts, p + 1, 1, depth + 1, opener, closer);
    } else {
      var next := if ts[i].value == opener then depth + 1 else if ts[i].value == closer then depth - 1 else depth;
      ReachesInside(ts, i + 1, next, p, opener, closer);
    }
  }

  lemma {:induction false} LessDepthSooner(ts: seq<Token>, i: nat, low: nat, high: nat, opener: Text, closer: Text)
    requires i <= |ts| && low < high
    requires CloseAfter(ts, i, high, opener, closer).Some?
    ensures CloseAfter(ts, i, low, opener, closer).Some?
    ensures CloseAfter(ts, i, low, opener, closer).value < CloseAfter(ts, i, high, opener, closer).value
    decreases |ts| - i
  {
    if low > 0 {
      var up, down := ts[i].value == opener, ts[i].value == closer;
      LessDepthSooner(ts, i + 1, if up then low + 1 else if down then low - 1 else low,
                      if up then high + 1 else if down then high - 1 else high, opener, closer);
    }
  }
}
