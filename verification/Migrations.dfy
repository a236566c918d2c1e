/** The migration history check of scripts/check_migration_heads.py: one pass over the
    revision files, then set differences; and what a single head says about the graph. */
module Migrations {
  import opened Text

  /** The literal assigned to `down_revision`. Absent, unreadable and None are all Nothing. */
  datatype Down = Nothing | Name(revision: Text) | Names(items: seq<Option<Text>>) | Other

  /** A revision file; the revision is None when it is not a string literal. */
  datatype Migration = Migration(path: Text, revision: Option<Text>, down: Down)

  /** `_parents`. */
  function Parents(down: Down): set<Text> {
    match down
    case Nothing => {}
    case Name(revision) => {revision}
    case Names(items) => set item | item in items && item.Some? :: item.value
    case Other => {}
  }

  function Revisions(files: seq<Migration>): set<Text> {
    set m | m in files && m.revision.Some? :: m.revision.value
  }

  function Referenced(files: seq<Migration>): set<Text> {
    set m, p | m in files && p in Parents(m.down) :: p
  }

  /** Every file declares a revision, and no two the same. */
  predicate WellNumbered(files: seq<Migration>) {
    && (forall i :: 0 <= i < |files| ==> files[i].revision.Some?)
    && (forall i, j :: 0 <= i < j < |files| ==> files[i].revision != files[j].revision)
  }

  function Unknown(files: seq<Migration>): set<Text> { Referenced(files) - Revisions(files) }

  function Heads(files: seq<Migration>): set<Text> { Revisions(files) - Referenced(files) }

  datatype Verdict =
    | NoRevision(path: Text)
    | Duplicate(path: Text, revision: Text, earlier: Text)
    | UnknownParents(unknown: set<Text>)
    | NotOneHead(heads: set<Text>)
    | Passed(head: Text)

  /** What the check answers. */
  ghost predicate Answers(files: seq<Migration>, verdict: Verdict) {
    match verdict
    case NoRevision(path) =>
      exists k :: 0 <= k < |files| && WellNumbered(files[..k]) && files[k].path == path && files[k].revision.None?
    case Duplicate(path, revision, earlier) =>
      exists j, k :: 0 <= j < k < |files| && WellNumbered(files[..k]) && files[k].path == path && files[j].path == earlier
                  && files[k].revision == Some(revision) == files[j].revision
    case UnknownParents(unknown) => WellNumbered(files) && unknown == Unknown(files) && unknown != {}
    case NotOneHead(heads) => WellNumbered(files) && Unknown(files) == {} && heads == Heads(files) && |heads| != 1
    case Passed(head) => WellNumbered(files) && Unknown(files) == {} && Heads(files) == {head}
  }

  lemma OneMore(files: seq<Migration>, file: Migration)
    ensures Revisions(files + [file]) == Revisions(files) + (if file.revision.Some? then {file.revision.value} else {})
    ensures Referenced(files + [file]) == Referenced(files) + Parents(file.down)
    ensures WellNumbered(files) && file.revision.Some? && file.revision.value !in Revisions(files) ==> WellNumbered(files + [file])
  {
    var all := files + [file];
    assert file in all && forall m :: m in all <==> m in files || m == file;
    if file.revision.Some? && file.revision.value !in Revisions(files) {
      assert forall i :: 0 <= i < |files| ==> files[i] in files;
    }
  }

  method CheckHeads(files: seq<Migration>) returns (verdict: Verdict)
    ensures Answers(files, verdict)
  {
    hide Revisions, Referenced, Parents, WellNumbered;
    var revisions: map<Text, Text> := map[];
    var referenced: set<Text> := {};
    NoFiles();
    for i := 0 to |files|
      invariant WellNumbered(files[..i])
      invariant revisions.Keys == Revisions(files[..i])
      invariant forall r :: r in revisions ==> exists j :: 0 <= j < i && files[j].revision == Some(r) && files[j].path == revisions[r]
      invariant referenced == Referenced(files[..i])
    {
      var file := files[i];
      assert files[..i + 1] == files[..i] + [file];
      if file.revision.None? {
        return NoRevision(file.path);
      }
      var revision := file.revision.value;
      if revision in revisions {
        return Duplicate(file.path, revision, revisions[revision]);
      }
      OneMore(files[..i], file);
      revisions := revisions[revision := file.path];
      referenced := referenced + Parents(file.down);
    }
    assert files[..|files|] == files;
    var unknown := referenced - revisions.Keys;
    if unknown != {} {
      return UnknownParents(unknown);
    }
    var heads := revisions.Keys - referenced;
    if |heads| != 1 {
      return NotOneHead(heads);
    }
    var head :| head in heads;
    OnlyElement(heads, head);
    return Passed(head);
  }

  lemma NoFiles()
    ensures WellNumbered([]) && Revisions([]) == {} && Referenced([]) == {}
  {
  }

  lemma OnlyElement<T>(s: set<T>, x: T)
    requires |s| == 1 && x in s
    ensures s == {x}
  {
    assert |s - {x}| == 0;
  }

  // ------------------------------------------------------------------ the graph

  /** `a` names `b` as a down revision. */
  ghost predicate Links(files: seq<Migration>, a: Text, b: Text) {
    exists i :: 0 <= i < |files| && files[i].revision == Some(a) && b in Parents(files[i].down)
  }

  ghost predicate IsPath(files: seq<Migration>, path: seq<Text>) {
    path != [] && forall k :: 0 <= k < |path| - 1 ==> Links(files, path[k], path[k + 1])
  }

  ghost predicate IsPathFrom(files: seq<Migration>, path: seq<Text>, a: Text, b: Text) {
    IsPath(files, path) && path[0] == a && path[|path| - 1] == b
  }

  /** `b` is reachable from `a` along down links. */
  ghost predicate Reaches(files: seq<Migration>, a: Text, b: Text) {
    exists path :: IsPathFrom(files, path, a, b)
  }

  ghost predicate OnCycle(files: seq<Migration>, c: Text) {
    exists d :: Links(files, c, d) && Reaches(files, d, c)
  }

  lemma ReachesSelf(files: seq<Migration>, a: Text)
    ensures Reaches(files, a, a)
  {
    assert IsPathFrom(files, [a], a, a);
  }

  lemma ReachesOn(files: seq<Migration>, a: Text, b: Text, c: Text)
    requires Reaches(files, a, b) && Reaches(files, b, c)
    ensures Reaches(files, a, c)
  {
    hide Links;
    var p :| IsPathFrom(files, p, a, b);
    var q :| IsPathFrom(files, q, b, c);
    var r := p + q[1..];
    forall k | 0 <= k < |r| - 1 ensures Links(files, r[k], r[k + 1]) {
      if k < |p| - 1 {
        assert Links(files, p[k], p[k + 1]);
      } else {
        assert Links(files, q[k - |p| + 1], q[k - |p| + 2]);
      }
    }
    assert IsPathFrom(files, r, a, c);
  }

  lemma LinkReaches(files: seq<Migration>, a: Text, b: Text)
    requires Links(files, a, b)
    ensures Reaches(files, a, b)
  {
    assert IsPathFrom(files, [a, b], a, b);
  }

  ghost predicate HasChild(files: seq<Migration>, within: set<Text>, u: Text) {
    exists c :: c in within && Links(files, c, u)
  }

  /** In the set, every revision is a down revision of another of the set. */
  ghost predicate HasChildren(files: seq<Migration>, within: set<Text>) {
    forall u {:trigger HasChild(files, within, u)} :: u in within ==> HasChild(files, within, u)
  }

  lemma ChildOf(files: seq<Migration>, within: set<Text>, at: Text) returns (child: Text)
    requires HasChildren(files, within) && at in within
    ensures child in within && Links(files, child, at)
  {
    hide Links;
    assert HasChild(files, within, at);
    child :| child in within && Links(files, child, at);
  }

  lemma MakesCycle(files: seq<Migration>, child: Text, at: Text)
    requires Links(files, child, at) && Reaches(files, at, child)
    ensures OnCycle(files, child)
  {
  }

  lemma Smaller(within: set<Text>, seen: set<Text>, at: Text)
    requires at in within && at !in seen
    ensures |within - (seen + {at})| < |within - seen|
  {
    assert within - seen == (within - (seen + {at})) + {at};
  }

  /** Climbing from child to child without end runs into a cycle. */
  lemma {:induction false} ClimbMeetsCycle(files: seq<Migration>, within: set<Text>, seen: set<Text>, start: Text, at: Text) returns (c: Text)
    requires HasChildren(files, within) && at in within && at !in seen
    requires Reaches(files, at, start)
    requires forall s :: s in seen ==> Reaches(files, at, s)
    ensures c in within && OnCycle(files, c) && Reaches(files, c, start)
    decreases |within - seen|
  {
    hide Links, Reaches, HasChildren, OnCycle;
    var child := ChildOf(files, within, at);
    LinkReaches(files, child, at);
    ReachesSelf(files, at);
    ReachesOn(files, child, at, start);
    if child in seen || child == at {
      MakesCycle(files, child, at);
      c := child;
    } else {
      forall s | s in seen + {at} ensures Reaches(files, child, s) {
        if s != at { ReachesOn(files, child, at, s); }
      }
      Smaller(within, seen, at);
      c := ClimbMeetsCycle(files, within, seen + {at}, start, child);
    }
  }

  lemma ReferencedByChild(files: seq<Migration>, r: Text) returns (c: Text)
    requires WellNumbered(files) && r in Referenced(files)
    ensures c in Revisions(files) && Links(files, c, r)
  {
    var m :| m in files && r in Parents(m.down);
    var i :| 0 <= i < |files| && files[i] == m;
    c := m.revision.value;
  }

  lemma HeadlessHasChildren(files: seq<Migration>)
    requires WellNumbered(files) && Heads(files) == {}
    ensures HasChildren(files, Revisions(files))
  {
    hide Links, Revisions, Referenced;
    forall u | u in Revisions(files) ensures HasChild(files, Revisions(files), u) {
      assert u !in Heads(files);
      var c := ReferencedByChild(files, u);
    }
  }

  /** An acyclic, non-empty history has a head. */
  lemma AcyclicHasHead(files: seq<Migration>)
    requires WellNumbered(files) && files != [] && forall c :: !OnCycle(files, c)
    ensures Heads(files) != {}
  {
    hide Links, Reaches, OnCycle, HasChildren, Heads;
    if Heads(files) == {} {
      HeadlessHasChildren(files);
      var start := files[0].revision.value;
      assert files[0] in files;
      ReachesSelf(files, start);
      var c := ClimbMeetsCycle(files, Revisions(files), {}, start, start);
      assert false;
    }
  }

  ghost function Unreached(files: seq<Migration>, head: Text): set<Text> {
    set u | u in Revisions(files) && !Reaches(files, head, u)
  }

  lemma UnreachedHaveChildren(files: seq<Migration>, head: Text)
    requires WellNumbered(files) && Heads(files) == {head}
    ensures HasChildren(files, Unreached(files, head))
  {
    hide Links, Reaches, Revisions, Referenced;
    ReachesSelf(files, head);
    forall u | u in Unreached(files, head) ensures HasChild(files, Unreached(files, head), u) {
      assert u !in Heads(files);
      var c := ReferencedByChild(files, u);
      LinkReaches(files, c, u);
      if Reaches(files, head, c) { ReachesOn(files, head, c, u); }
    }
  }

  /** In a history with one head, what the head does not reach hangs below a cycle the head
      does not reach. */
  lemma UnreachedHangsBelowCycle(files: seq<Migration>, head: Text, r: Text) returns (c: Text)
    requires WellNumbered(files) && Heads(files) == {head} && r in Revisions(files) && !Reaches(files, head, r)
    ensures c in Revisions(files) && OnCycle(files, c) && Reaches(files, c, r) && !Reaches(files, head, c)
  {
    hide Links, Reaches, OnCycle, HasChildren, Revisions, Heads;
    UnreachedHaveChildren(files, head);
    ReachesSelf(files, r);
    c := ClimbMeetsCycle(files, Unreached(files, head), {}, r, r);
  }

  /** When the check passes, the head reaches every revision exactly when it reaches every
      cycle; in particular whenever there is none. */
  lemma HeadReachesAllIff(files: seq<Migration>, head: Text)
    requires Answers(files, Passed(head))
    ensures (forall r :: r in Revisions(files) ==> Reaches(files, head, r)) <==>
              (forall c :: c in Revisions(files) && OnCycle(files, c) ==> Reaches(files, head, c))
    ensures (forall c :: !OnCycle(files, c)) ==> forall r :: r in Revisions(files) ==> Reaches(files, head, r)
  {
    hide Reaches, OnCycle;
    forall r | r in Revisions(files) && !Reaches(files, head, r)
      ensures exists c :: c in Revisions(files) && OnCycle(files, c) && !Reaches(files, head, c)
    {
      var c := UnreachedHangsBelowCycle(files, head, r);
    }
  }

  lemma NoLinksFromRoot(files: seq<Migration>, root: Text, b: Text)
    requires forall i :: 0 <= i < |files| && files[i].revision == Some(root) ==> files[i].down.Nothing?
    ensures !Links(files, root, b)
  {
  }

  /** Two revisions that name each other beside a lone root: the check passes, and its head
      reaches neither of them. */
  lemma CycleIsAccepted(root: Text, b: Text, c: Text)
    requires root != b && root != c && b != c
    ensures var files := [Migration([], Some(root), Nothing), Migration([], Some(b), Name(c)), Migration([], Some(c), Name(b))];
            Answers(files, Passed(root)) && !Reaches(files, root, b)
  {
    var files := [Migration([], Some(root), Nothing), Migration([], Some(b), Name(c)), Migration([], Some(c), Name(b))];
    assert files[0] in files && files[1] in files && files[2] in files;
    assert Revisions(files) == {root, b, c};
    assert Referenced(files) == {b, c} by {
      assert c in Parents(files[1].down) && b in Parents(files[2].down);
    }
    if Reaches(files, root, b) {
      var path :| IsPathFrom(files, path, root, b);
      NoLinksFromRoot(files, root, path[1]);
    }
  }
}
