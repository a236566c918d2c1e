/** The exact, shrink-only census of mypy diagnostics in
    server/scripts/check_mypy_baseline.py: normalised identities, the stored JSON document
    and its parser, and the accept or refuse decisions over a history of commits. */
module MypyBaseline {
  import opened Text
  import opened Lists

  /** Decoded JSON. */
  datatype Json = Str(text: Text) | Num(n: int) | Real(r: real) | Bool(b: bool) | List(items: seq<Json>) | Obj(fields: map<string, Json>) | Null

  datatype Identity = Identity(path: Text, code: Text, message: Text)

  type Diagnostics = multiset<Identity>

  datatype Baseline = Baseline(version: Text, diagnostics: Diagnostics)

  // ------------------------------------------------------------------ splitting and joining

  /** Python's `t.split(sep)` for a one-character separator. */
  function SplitOn(t: Text, sep: int): (parts: seq<Text>)
    ensures |parts| > 0
  {
    if t == [] then [[]]
    else
      var rest := SplitOn(t[1..], sep);
      if t[0] == sep then [[]] + rest else [[t[0]] + rest[0]] + rest[1..]
  }

  function JoinOn(parts: seq<Text>, sep: int): Text {
    if parts == [] then [] else if |parts| == 1 then parts[0] else parts[0] + [sep] + JoinOn(parts[1..], sep)
  }

  lemma {:induction false} SplitPartsLackSeparator(t: Text, sep: int)
    ensures forall i :: 0 <= i < |SplitOn(t, sep)| ==> sep !in SplitOn(t, sep)[i]
    ensures forall i, c :: 0 <= i < |SplitOn(t, sep)| && c in SplitOn(t, sep)[i] ==> c in t
  {
    if t != [] {
      assert t == [t[0]] + t[1..];
      SplitPartsLackSeparator(t[1..], sep);
    }
  }

  lemma {:induction false} SplitPrefix(part: Text, rest: Text, sep: int)
    requires sep !in part
    ensures SplitOn(part + [sep] + rest, sep) == [part] + SplitOn(rest, sep)
    ensures SplitOn(part, sep) == [part]
  {
    var t := part + [sep] + rest;
    if part == [] {
      assert t[1..] == rest;
    } else {
      assert t[1..] == part[1..] + [sep] + rest;
      SplitPrefix(part[1..], rest, sep);
      assert part == [part[0]] + part[1..];
      assert [[part[0]] + part[1..]] + SplitOn(rest, sep) == [part] + SplitOn(rest, sep);
    }
  }

  /** Splitting undoes joining. */
  lemma {:induction false} SplitOfJoin(parts: seq<Text>, sep: int)
    requires parts != [] && forall i :: 0 <= i < |parts| ==> sep !in parts[i]
    ensures SplitOn(JoinOn(parts, sep), sep) == parts
  {
    if |parts| == 1 {
      SplitPrefix(parts[0], [], sep);
    } else {
      SplitOfJoin(parts[1..], sep);
      SplitPrefix(parts[0], JoinOn(parts[1..], sep), sep);
      assert parts == [parts[0]] + parts[1..];
    }
  }

  lemma {:induction false} JoinElements(parts: seq<Text>, sep: int, c: int)
    requires c in JoinOn(parts, sep)
    ensures c == sep || exists i :: 0 <= i < |parts| && c in parts[i]
  {
    if |parts| > 1 && c !in parts[0] && c != sep {
      JoinElements(parts[1..], sep, c);
      var i :| 0 <= i < |parts| - 1 && c in parts[1..][i];
      assert c in parts[i + 1];
    }
  }

  lemma {:induction false} FilterAll<T>(s: seq<T>, p: T -> bool)
    requires forall i :: 0 <= i < |s| ==> p(s[i])
    ensures Filter(s, p) == s
  {
    if s != [] { FilterAll(s[..|s| - 1], p); }
  }

  lemma FilterHolds<T>(s: seq<T>, p: T -> bool)
    ensures forall i :: 0 <= i < |Filter(s, p)| ==> p(Filter(s, p)[i]) && Filter(s, p)[i] in s
  {
    forall i | 0 <= i < |Filter(s, p)| ensures p(Filter(s, p)[i]) && Filter(s, p)[i] in s {
      FilterMembers(s, p, Filter(s, p)[i]);
    }
  }

  /** Replace every member of a class by one code point. */
  function Replace(t: Text, class_: int -> bool, by_: int): (r: Text)
    ensures |r| == |t|
  {
    Map(t, c => if class_(c) then by_ else c)
  }

  // ------------------------------------------------------------------ normal forms

  predicate IsWord(t: Text) { t != [] }

  /** Python's `message.split()`: runs free of white space. */
  function Words(t: Text, space: int -> bool): seq<Text> {
    Filter(SplitOn(Replace(t, space, SPACE), SPACE), IsWord)
  }

  /** `normalize_message`. */
  function NormalizeMessage(t: Text, space: int -> bool): Text { JoinOn(Words(t, space), SPACE) }

  lemma WordsAreClean(t: Text, space: int -> bool)
    requires space(SPACE)
    ensures forall i :: 0 <= i < |Words(t, space)| ==> Words(t, space)[i] != [] && forall c :: c in Words(t, space)[i] ==> !space(c)
  {
    var r := Replace(t, space, SPACE);
    SplitPartsLackSeparator(r, SPACE);
    FilterHolds(SplitOn(r, SPACE), IsWord);
    forall i, c | 0 <= i < |Words(t, space)| && c in Words(t, space)[i] ensures !space(c) {
      var w := Words(t, space)[i];
      assert w in SplitOn(r, SPACE);
      var j :| 0 <= j < |SplitOn(r, SPACE)| && SplitOn(r, SPACE)[j] == w;
      assert c in r && c != SPACE;
    }
  }

  /** Normalising twice is normalising once. */
  lemma MessageIsNormal(t: Text, space: int -> bool)
    requires space(SPACE)
    ensures var m := NormalizeMessage(t, space); NormalizeMessage(m, space) == m
  {
    hide Filter, SplitOn;
    var words := Words(t, space);
    var m := JoinOn(words, SPACE);
    WordsAreClean(t, space);
    forall i | 0 <= i < |m| ensures space(m[i]) ==> m[i] == SPACE { JoinElements(words, SPACE, m[i]); }
    assert Replace(m, space, SPACE) == m;
    if words == [] {
      NoWords(space);
    } else {
      SplitOfJoin(words, SPACE);
      FilterAll(words, IsWord);
    }
  }

  lemma NoWords(space: int -> bool)
    ensures NormalizeMessage([], space) == []
  {
    assert Replace([], space, SPACE) == [];
    var one: seq<Text> := [[]];
    assert one[..0] == [] && Filter(one, IsWord) == [];
  }

  predicate IsPart(t: Text) { t != [] && t != [DOT] }

  function Parts(t: Text): seq<Text> {
    Filter(SplitOn(Replace(t, c => c == BACKSLASH, SLASH), SLASH), IsPart)
  }

  /** `normalize_path`: absolute, climbing and empty paths are errors. */
  function NormalizePath(t: Text): Option<Text> {
    if (t != [] && (t[0] == SLASH || t[0] == BACKSLASH)) || [DOT, DOT] in Parts(t) || Parts(t) == [] then None
    else Some(JoinOn(Parts(t), SLASH))
  }

  lemma PartsAreClean(t: Text)
    ensures forall i :: 0 <= i < |Parts(t)| ==> IsPart(Parts(t)[i]) && forall c :: c in Parts(t)[i] ==> c != SLASH && c != BACKSLASH
  {
    var r := Replace(t, c => c == BACKSLASH, SLASH);
    SplitPartsLackSeparator(r, SLASH);
    FilterHolds(SplitOn(r, SLASH), IsPart);
    forall i, c | 0 <= i < |Parts(t)| && c in Parts(t)[i] ensures c != SLASH && c != BACKSLASH {
      var w := Parts(t)[i];
      assert w in SplitOn(r, SLASH);
      var j :| 0 <= j < |SplitOn(r, SLASH)| && SplitOn(r, SLASH)[j] == w;
      assert c in r;
    }
  }

  lemma {:induction false} JoinStarts(parts: seq<Text>, sep: int)
    requires parts != [] && parts[0] != []
    ensures JoinOn(parts, sep) != [] && JoinOn(parts, sep)[0] == parts[0][0]
  {
  }

  lemma PathIsNormal(t: Text)
    requires NormalizePath(t).Some?
    ensures NormalizePath(NormalizePath(t).value) == NormalizePath(t)
  {
    hide Filter, SplitOn, JoinOn;
    var parts := Parts(t);
    var p := JoinOn(parts, SLASH);
    PartsAreClean(t);
    forall i | 0 <= i < |p| ensures p[i] != BACKSLASH { JoinElements(parts, SLASH, p[i]); }
    assert Replace(p, c => c == BACKSLASH, SLASH) == p;
    SplitOfJoin(parts, SLASH);
    FilterAll(parts, IsPart);
    JoinStarts(parts, SLASH);
    assert parts[0][0] in parts[0];
  }

  /** The identities a stored baseline can hold. */
  predicate Normal(id: Identity, space: int -> bool) {
    NormalizePath(id.path) == Some(id.path) && NormalizeMessage(id.message, space) == id.message
  }

  ghost predicate AllNormal(ds: Diagnostics, space: int -> bool) {
    forall id :: id in ds ==> Normal(id, space)
  }

  // ------------------------------------------------------------------ mypy output

  /** A line of mypy output, stripped and decoded. */
  datatype Line = Blank | NotJson | Malformed | Decoded(value: Json)

  predicate IsString(fields: map<string, Json>, name: string) { name in fields && fields[name].Str? }

  /** The identity an error line reports; None is a BaselineError. */
  function ErrorIdentity(fields: map<string, Json>, space: int -> bool): Option<Identity> {
    if !IsString(fields, "file") || !IsString(fields, "code") || !IsString(fields, "message") then None
    else
      var path := NormalizePath(fields["file"].text);
      var code, message := Strip(fields["code"].text, space), NormalizeMessage(fields["message"].text, space);
      if path.None? || code == [] || message == [] then None else Some(Identity(path.value, code, message))
  }

  predicate IsError(fields: map<string, Json>) { "severity" in fields && fields["severity"] == Str(Lit("error")) }

  /** What one line adds; None is a BaselineError. */
  function LineDiagnostics(line: Line, space: int -> bool): Option<Diagnostics> {
    match line
    case Blank => Some(multiset{})
    case NotJson => None
    case Malformed => None
    case Decoded(value) =>
      if !value.Obj? then None
      else if !IsError(value.fields) then Some(multiset{})
      else
        var id := ErrorIdentity(value.fields, space);
        if id.None? then None else Some(multiset{id.value})
  }

  function LinesDiagnostics(lines: seq<Line>, space: int -> bool): Option<Diagnostics> {
    if lines == [] then Some(multiset{})
    else
      var init, last := LinesDiagnostics(lines[..|lines| - 1], space), LineDiagnostics(lines[|lines| - 1], space);
      if init.None? || last.None? then None else Some(init.value + last.value)
  }

  lemma {:induction false} LinesFail(lines: seq<Line>, space: int -> bool, i: nat)
    requires i <= |lines| && LinesDiagnostics(lines[..i], space).None?
    ensures LinesDiagnostics(lines, space).None?
    decreases |lines| - i
  {
    if i < |lines| {
      assert lines[..i + 1][..i] == lines[..i];
      LinesFail(lines, space, i + 1);
    } else {
      assert lines[..i] == lines;
    }
  }

  method ParseMypyJsonLines(lines: seq<Line>, space: int -> bool) returns (diagnostics: Option<Diagnostics>)
    ensures diagnostics == LinesDiagnostics(lines, space)
  {
    hide ErrorIdentity;
    var found: Diagnostics := multiset{};
    for i := 0 to |lines|
      invariant LinesDiagnostics(lines[..i], space) == Some(found)
    {
      var line := lines[i];
      assert found + multiset{} == found;
      assert lines[..i + 1][..i] == lines[..i];
      if line.Blank? {
        continue;
      }
      if !line.Decoded? || !line.value.Obj? {
        LinesFail(lines, space, i + 1);
        return None;
      }
      if !IsError(line.value.fields) {
        continue;
      }
      var id := ErrorIdentity(line.value.fields, space);
      if id.None? {
        LinesFail(lines, space, i + 1);
        return None;
      }
      found := found + multiset{id.value};
    }
    assert lines[..|lines|] == lines;
    return Some(found);
  }

  lemma {:induction false} LinesConcat(a: seq<Line>, b: seq<Line>, space: int -> bool)
    ensures var x, y := LinesDiagnostics(a, space), LinesDiagnostics(b, space);
            LinesDiagnostics(a + b, space) == if x.None? || y.None? then None else Some(x.value + y.value)
    decreases |b|
  {
    hide LineDiagnostics;
    if b == [] {
      assert a + b == a;
      var x := LinesDiagnostics(a, space);
      if x.Some? { assert x.value + multiset{} == x.value; }
    } else {
      assert (a + b)[..|a + b| - 1] == a + b[..|b| - 1];
      LinesConcat(a, b[..|b| - 1], space);
      var x, y, z := LinesDiagnostics(a, space), LinesDiagnostics(b[..|b| - 1], space), LineDiagnostics(b[|b| - 1], space);
      if x.Some? && y.Some? && z.Some? { assert x.value + (y.value + z.value) == (x.value + y.value) + z.value; }
    }
  }

  /** The census does not depend on the order in which mypy reports. */
  lemma OrderDoesNotMatter(a: seq<Line>, b: seq<Line>, space: int -> bool)
    ensures LinesDiagnostics(a + b, space) == LinesDiagnostics(b + a, space)
  {
    hide LinesDiagnostics;
    LinesConcat(a, b, space);
    LinesConcat(b, a, space);
    var x, y := LinesDiagnostics(a, space), LinesDiagnostics(b, space);
    if x.Some? && y.Some? { assert x.value + y.value == y.value + x.value; }
  }

  /** Nor on anything a diagnostic says besides severity, file, code and message: line
      numbers may move. An error line counts once, under those three. */
  lemma LineNumbersDoNotMatter(a: map<string, Json>, b: map<string, Json>, space: int -> bool)
    requires forall name :: name in {"severity", "file", "code", "message"} ==>
               (name in a <==> name in b) && (name in a ==> a[name] == b[name])
    ensures LineDiagnostics(Decoded(Obj(a)), space) == LineDiagnostics(Decoded(Obj(b)), space)
    ensures var r := LineDiagnostics(Decoded(Obj(a)), space);
            IsError(a) && r.Some? ==>
              exists id :: r.value == multiset{id} && NormalizePath(a["file"].text) == Some(id.path) &&
                           id.code == Strip(a["code"].text, space) && id.message == NormalizeMessage(a["message"].text, space)
  {
    hide NormalizePath, NormalizeMessage, Strip;
    var r := LineDiagnostics(Decoded(Obj(a)), space);
    if IsError(a) && r.Some? {
      assert r.value == multiset{ErrorIdentity(a, space).value};
    }
  }

  /** The parser only yields normal identities. */
  lemma {:induction false} ParsedLinesAreNormal(lines: seq<Line>, space: int -> bool)
    requires space(SPACE) && LinesDiagnostics(lines, space).Some?
    ensures AllNormal(LinesDiagnostics(lines, space).value, space)
  {
    hide NormalizePath, NormalizeMessage, Strip;
    if lines != [] {
      ParsedLinesAreNormal(lines[..|lines| - 1], space);
      var last := lines[|lines| - 1];
      if last.Decoded? && IsError(last.value.fields) {
        var fields := last.value.fields;
        PathIsNormal(fields["file"].text);
        MessageIsNormal(fields["message"].text, space);
      }
    }
  }

  // ------------------------------------------------------------------ the stored document

  const DOCUMENT_KEYS := {"schema_version", "mypy_version", "diagnostics"}
  const ENTRY_KEYS := {"path", "code", "message", "count"}
  const SCHEMA_VERSION := 1

  /** An entry of the document; None is a BaselineError. */
  function ParseEntry(entry: Json, space: int -> bool): (r: Option<(Identity, nat)>)
    ensures r.Some? ==> r.value.1 > 0
  {
    if !entry.Obj? || entry.fields.Keys != ENTRY_KEYS then None
    else if !entry.fields["path"].Str? || !entry.fields["code"].Str? || !entry.fields["message"].Str? then None
    else if !entry.fields["count"].Num? || entry.fields["count"].n < 1 then None
    else
      var path := NormalizePath(entry.fields["path"].text);
      if path.None? then None
      else
        Some((Identity(path.value, entry.fields["code"].text, NormalizeMessage(entry.fields["message"].text, space)),
              entry.fields["count"].n))
  }

  function ParseEntries(entries: seq<Json>, space: int -> bool): Option<Diagnostics> {
    if entries == [] then Some(multiset{})
    else
      var init, last := ParseEntries(entries[..|entries| - 1], space), ParseEntry(entries[|entries| - 1], space);
      if init.None? || last.None? || last.value.0 in init.value then None
      else Some(init.value[last.value.0 := last.value.1])
  }

  /** Python's `payload["schema_version"] == SCHEMA_VERSION`, under which True is 1. */
  predicate IsSchema(value: Json) { value == Num(SCHEMA_VERSION) || value == Real(SCHEMA_VERSION as real) || value == Bool(true) }

  /** `parse_baseline` on a decoded document. */
  function Parsed(document: Json, space: int -> bool): Option<Baseline> {
    if !document.Obj? || document.fields.Keys != DOCUMENT_KEYS then None
    else if !IsSchema(document.fields["schema_version"]) then None
    else if !document.fields["mypy_version"].Str? || document.fields["mypy_version"].text == [] then None
    else if !document.fields["diagnostics"].List? then None
    else
      var diagnostics := ParseEntries(document.fields["diagnostics"].items, space);
      if diagnostics.None? then None else Some(Baseline(document.fields["mypy_version"].text, diagnostics.value))
  }

  lemma {:induction false} EntriesFail(entries: seq<Json>, space: int -> bool, i: nat)
    requires i <= |entries| && ParseEntries(entries[..i], space).None?
    ensures ParseEntries(entries, space).None?
    decreases |entries| - i
  {
    if i < |entries| {
      assert entries[..i + 1][..i] == entries[..i];
      EntriesFail(entries, space, i + 1);
    } else {
      assert entries[..i] == entries;
    }
  }

  method ParseBaseline(document: Json, space: int -> bool) returns (baseline: Option<Baseline>)
    ensures baseline == Parsed(document, space)
  {
    hide ParseEntry;
    if !document.Obj? || document.fields.Keys != DOCUMENT_KEYS || !IsSchema(document.fields["schema_version"]) {
      return None;
    }
    var version, entries := document.fields["mypy_version"], document.fields["diagnostics"];
    if !version.Str? || version.text == [] || !entries.List? {
      return None;
    }
    var diagnostics: Diagnostics := multiset{};
    for i := 0 to |entries.items|
      invariant ParseEntries(entries.items[..i], space) == Some(diagnostics)
    {
      assert entries.items[..i + 1][..i] == entries.items[..i];
      var entry := ParseEntry(entries.items[i], space);
      if entry.None? || entry.value.0 in diagnostics {
        EntriesFail(entries.items, space, i + 1);
        return None;
      }
      diagnostics := diagnostics[entry.value.0 := entry.value.1];
    }
    assert entries.items[..|entries.items|] == entries.items;
    return Some(Baseline(version.text, diagnostics));
  }

  // ------------------------------------------------------------------ writing the document

  /** The order of identities: path, code, message. */
  predicate Before(a: Identity, b: Identity) {
    TextLess(a.path, b.path) ||
    (a.path == b.path && (TextLess(a.code, b.code) || (a.code == b.code && TextLess(a.message, b.message))))
  }

  lemma BeforeIsTotal(a: Identity, b: Identity, c: Identity)
    ensures Before(a, b) ==> !Before(b, a)
    ensures Before(a, b) || Before(b, a) || a == b
    ensures Before(a, b) && Before(b, c) ==> Before(a, c)
  {
    hide TextLess;
    TextOrder(a.path, b.path, c.path);
    TextOrder(a.code, b.code, c.code);
    TextOrder(a.message, b.message, c.message);
    TextOrder(b.path, a.path, c.path);
    TextOrder(b.code, a.code, c.code);
    TextOrder(b.message, a.message, c.message);
    TextOrder(b.path, c.path, a.path);
  }

  predicate IsLeast(id: Identity, ids: set<Identity>) {
    id in ids && forall other :: other in ids ==> other == id || Before(id, other)
  }

  lemma {:induction false} FindLeast(ids: set<Identity>) returns (least: Identity)
    requires ids != {}
    ensures IsLeast(least, ids)
    decreases |ids|
  {
    hide Before;
    var id :| id in ids;
    least := id;
    if ids != {id} {
      assert ids - {id} != {};
      var rest := FindLeast(ids - {id});
      BeforeIsTotal(id, rest, id);
      if Before(rest, id) { least := rest; }
      forall other | other in ids ensures other == least || Before(least, other) {
        BeforeIsTotal(id, rest, other);
        if other != id { assert other in ids - {id}; }
      }
    }
  }

  lemma OneLeast(ids: set<Identity>)
    requires ids != {}
    ensures exists least :: IsLeast(least, ids)
    ensures forall a, b :: IsLeast(a, ids) && IsLeast(b, ids) ==> a == b
  {
    var least := FindLeast(ids);
    forall a, b | IsLeast(a, ids) && IsLeast(b, ids) ensures a == b { BeforeIsTotal(a, b, a); }
  }

  /** Python's `sorted` on the identities of a counter. */
  function Ordered(ids: set<Identity>): (r: seq<Identity>)
    ensures forall id :: id in r <==> id in ids
    decreases |ids|
  {
    if ids == {} then []
    else
      OneLeast(ids);
      var least :| least in ids && IsLeast(least, ids);
      [least] + Ordered(ids - {least})
  }

  lemma {:induction false} OrderedIsDistinct(ids: set<Identity>)
    ensures forall i, j :: 0 <= i < j < |Ordered(ids)| ==> Before(Ordered(ids)[i], Ordered(ids)[j]) && Ordered(ids)[i] != Ordered(ids)[j]
    decreases |ids|
  {
    hide Before;
    if ids != {} {
      OneLeast(ids);
      var least := Ordered(ids)[0];
      OrderedIsDistinct(ids - {least});
      assert Ordered(ids)[1..] == Ordered(ids - {least});
      forall i, j | 0 <= i < j < |Ordered(ids)| ensures Before(Ordered(ids)[i], Ordered(ids)[j]) && Ordered(ids)[i] != Ordered(ids)[j] {
        assert Ordered(ids)[j] == Ordered(ids)[1..][j - 1];
        if i == 0 {
          assert Ordered(ids)[j] in Ordered(ids - {least});
        } else {
          assert Ordered(ids)[i] == Ordered(ids)[1..][i - 1];
        }
      }
    }
  }

  function EntryOf(id: Identity, count: nat): Json {
    Obj(map["path" := Str(id.path), "code" := Str(id.code), "message" := Str(id.message), "count" := Num(count)])
  }

  function Entries(ids: seq<Identity>, diagnostics: Diagnostics): (r: seq<Json>)
    ensures |r| == |ids|
    ensures forall i :: 0 <= i < |ids| ==> r[i] == EntryOf(ids[i], diagnostics[ids[i]])
  {
    seq(|ids|, i requires 0 <= i < |ids| => EntryOf(ids[i], diagnostics[ids[i]]))
  }

  function Identities(diagnostics: Diagnostics): set<Identity> { set id | id in diagnostics }

  /** `baseline_payload`. */
  function BaselinePayload(b: Baseline): Json {
    Obj(map["schema_version" := Num(SCHEMA_VERSION),
            "mypy_version" := Str(b.version),
            "diagnostics" := List(Entries(Ordered(Identities(b.diagnostics)), b.diagnostics))])
  }

  lemma EntryRoundTrip(id: Identity, count: nat, space: int -> bool)
    requires count > 0 && Normal(id, space)
    ensures ParseEntry(EntryOf(id, count), space) == Some((id, count))
  {
    hide NormalizePath, NormalizeMessage;
    assert EntryOf(id, count).fields.Keys == ENTRY_KEYS;
  }

  lemma {:induction false} EntriesRoundTrip(ids: seq<Identity>, diagnostics: Diagnostics, space: int -> bool)
    requires forall i, j :: 0 <= i < j < |ids| ==> ids[i] != ids[j]
    requires forall i :: 0 <= i < |ids| ==> ids[i] in diagnostics && Normal(ids[i], space)
    ensures var r := ParseEntries(Entries(ids, diagnostics), space);
            r.Some? && forall id :: r.value[id] == if id in ids then diagnostics[id] else 0
  {
    hide EntryOf, ParseEntry, Normal;
    if ids != [] {
      var init, last := ids[..|ids| - 1], ids[|ids| - 1];
      assert ids == init + [last] && last !in init;
      EntriesRoundTrip(init, diagnostics, space);
      assert Entries(ids, diagnostics)[..|ids| - 1] == Entries(init, diagnostics);
      EntryRoundTrip(last, diagnostics[last], space);
    }
  }

  /** What the parser accepts is normal, so only normal baselines can come back. */
  lemma {:induction false} ParsedEntriesAreNormal(entries: seq<Json>, space: int -> bool)
    requires space(SPACE) && ParseEntries(entries, space).Some?
    ensures AllNormal(ParseEntries(entries, space).value, space)
  {
    hide NormalizePath, NormalizeMessage;
    if entries != [] {
      ParsedEntriesAreNormal(entries[..|entries| - 1], space);
      var fields := entries[|entries| - 1].fields;
      PathIsNormal(fields["path"].text);
      MessageIsNormal(fields["message"].text, space);
    }
  }

  /** Parsing inverts writing exactly for a non-empty version and normal identities. */
  lemma RoundTripIff(b: Baseline, space: int -> bool)
    requires space(SPACE)
    ensures Parsed(BaselinePayload(b), space) == Some(b) <==> b.version != [] && AllNormal(b.diagnostics, space)
  {
    hide Normal, ParseEntries, Ordered, Entries;
    var ids := Ordered(Identities(b.diagnostics));
    var fields := BaselinePayload(b).fields;
    assert fields.Keys == DOCUMENT_KEYS;
    var entries := fields["diagnostics"].items;
    if b.version != [] && AllNormal(b.diagnostics, space) {
      OrderedIsDistinct(Identities(b.diagnostics));
      assert forall i :: 0 <= i < |ids| ==> ids[i] in ids;
      EntriesRoundTrip(ids, b.diagnostics, space);
      var r := ParseEntries(entries, space).value;
      assert forall id :: r[id] == b.diagnostics[id];
      assert r == b.diagnostics;
    }
    if Parsed(BaselinePayload(b), space) == Some(b) {
      ParsedEntriesAreNormal(entries, space);
    }
  }

  /** Every census the mypy parser produces survives being stored. */
  lemma ParsedCensusIsStorable(lines: seq<Line>, version: Text, space: int -> bool)
    requires space(SPACE) && version != [] && LinesDiagnostics(lines, space).Some?
    ensures Parsed(BaselinePayload(Baseline(version, LinesDiagnostics(lines, space).value)), space) ==
              Some(Baseline(version, LinesDiagnostics(lines, space).value))
  {
    ParsedLinesAreNormal(lines, space);
    RoundTripIff(Baseline(version, LinesDiagnostics(lines, space).value), space);
  }

  // ------------------------------------------------------------------ decisions

  /** A finished mypy process. */
  datatype MypyRun = MypyRun(returncode: int, hasStderr: bool, lines: seq<Line>)

  /** `run_mypy`; None is a BaselineError. */
  function Diagnosed(run: MypyRun, space: int -> bool): Option<Diagnostics> {
    var diagnostics := LinesDiagnostics(run.lines, space);
    if (run.returncode != 0 && run.returncode != 1) || run.hasStderr || diagnostics.None? then None
    else if (run.returncode == 1) != (diagnostics.value != multiset{}) then None
    else diagnostics
  }

  /** `compare_censuses`: what is new and what is stale. */
  function CompareCensuses(current: Diagnostics, expected: Diagnostics): (Diagnostics, Diagnostics) {
    (current - expected, expected - current)
  }

  lemma NothingNewIff(current: Diagnostics, expected: Diagnostics)
    ensures CompareCensuses(current, expected).0 == multiset{} <==> current <= expected
    ensures CompareCensuses(current, expected).1 == multiset{} <==> expected <= current
    ensures current <= expected && expected <= current <==> current == expected
  {
    EmptyDifference(current, expected);
    EmptyDifference(expected, current);
    if current <= expected && expected <= current {
      forall id ensures current[id] == expected[id] {}
      assert current == expected;
    }
  }

  lemma EmptyDifference(a: Diagnostics, b: Diagnostics)
    ensures a - b == multiset{} <==> a <= b
  {
    if a - b == multiset{} {
      forall id ensures a[id] <= b[id] { assert (a - b)[id] == 0; }
    }
    if a <= b {
      forall id ensures (a - b)[id] == 0 { }
    }
  }

  /** `require_monotonic_baseline` does not raise. */
  predicate IsMonotonic(candidate: Baseline, previous: Baseline) {
    candidate.version == previous.version && CompareCensuses(candidate.diagnostics, previous.diagnostics).0 == multiset{}
  }

  datatype Action = Initialize | Write | Check

  /** The comparison revision: none given, not resolvable, or the document stored there. */
  datatype Comparison = NoRef | BadRef | At(document: Option<Json>)

  /** The stored baseline is readable, fits the tool version, and did not grow since the
      comparison revision. */
  ghost predicate Trusted(stored: Option<Json>, version: Option<Text>, comparison: Comparison, space: int -> bool) {
    && stored.Some? && Parsed(stored.value, space).Some?
    && comparison.At?
    && version == Some(Parsed(stored.value, space).value.version)
    && (comparison.document.Some? ==>
          var previous := Parsed(comparison.document.value, space);
          && previous.Some? && previous.value.version == version.value
          && Parsed(stored.value, space).value.diagnostics <= previous.value.diagnostics)
  }

  ghost predicate Passes(stored: Option<Json>, version: Option<Text>, run: MypyRun, comparison: Comparison, space: int -> bool) {
    && Trusted(stored, version, comparison, space)
    && Diagnosed(run, space) == Some(Parsed(stored.value, space).value.diagnostics)
  }

  ghost predicate Shrinks(stored: Option<Json>, version: Option<Text>, run: MypyRun, comparison: Comparison, space: int -> bool) {
    && Trusted(stored, version, comparison, space)
    && Diagnosed(run, space).Some? && Diagnosed(run, space).value <= Parsed(stored.value, space).value.diagnostics
  }

  /** The baseline file; None when it does not exist. */
  class BaselineFile {
    var stored: Option<Json>

    constructor (stored: Option<Json>)
      ensures this.stored == stored
    {
      this.stored := stored;
    }

    /** The decisions of `main`: the exit status and what is written. */
    method Ratchet(action: Action, version: Option<Text>, run: MypyRun, comparison: Comparison, space: int -> bool) returns (status: int)
      modifies this
      ensures status == 0 || status == 1
      ensures status == 1 ==> stored == old(stored)
      ensures action.Check? ==> stored == old(stored) && (status == 0 <==> Passes(stored, version, run, comparison, space))
      ensures action.Write? ==> (status == 0 <==> Shrinks(old(stored), version, run, comparison, space))
      ensures action.Write? && status == 0 ==>
                var current := Diagnosed(run, space).value;
                stored == if current == Parsed(old(stored).value, space).value.diagnostics then old(stored)
                          else Some(BaselinePayload(Baseline(version.value, current)))
      ensures action.Initialize? ==> (status == 0 <==> old(stored).None? && version.Some? && Diagnosed(run, space).Some?)
      ensures action.Initialize? && status == 0 ==>
                stored == Some(BaselinePayload(Baseline(version.value, Diagnosed(run, space).value)))
    {
      hide Parsed, LinesDiagnostics, BaselinePayload, CompareCensuses;
      status := 1;
      if version.None? {
        return;
      }
      if action.Initialize? {
        if stored.Some? {
          return;
        }
        var initial := Diagnosed(run, space);
        if initial.Some? {
          stored := Some(BaselinePayload(Baseline(version.value, initial.value)));
          status := 0;
        }
        return;
      }
      if !comparison.At? || stored.None? {
        return;
      }
      var baseline := ParseBaseline(stored.value, space);
      if baseline.None? {
        return;
      }
      var previous: Option<Baseline> := None;
      if comparison.document.Some? {
        previous := ParseBaseline(comparison.document.value, space);
        if previous.None? || !IsMonotonic(baseline.value, previous.value) {
          NothingNewIff(baseline.value.diagnostics, if previous.Some? then previous.value.diagnostics else multiset{});
          return;
        }
        NothingNewIff(baseline.value.diagnostics, previous.value.diagnostics);
      }
      if version.value != baseline.value.version {
        return;
      }
      var current := Diagnosed(run, space);
      if current.None? {
        return;
      }
      NothingNewIff(current.value, baseline.value.diagnostics);
      var (added, stale) := CompareCensuses(current.value, baseline.value.diagnostics);
      if action.Write? {
        if added != multiset{} {
          return;
        }
        if previous.Some? {
          NothingNewIff(current.value, previous.value.diagnostics);
          if CompareCensuses(current.value, previous.value.diagnostics).0 != multiset{} {
            return;
          }
        }
        status := 0;
        if stale == multiset{} {
          return;
        }
        stored := Some(BaselinePayload(Baseline(version.value, current.value)));
        return;
      }
      if added == multiset{} && stale == multiset{} {
        status := 0;
      }
    }
  }

  /** A shrink that was written passes the check on the same tree and comparison. */
  lemma WrittenPasses(before: Option<Json>, after: Option<Json>, version: Option<Text>, run: MypyRun, comparison: Comparison, space: int -> bool)
    requires space(SPACE) && Shrinks(before, version, run, comparison, space)
    requires var current := Diagnosed(run, space).value;
             after == if current == Parsed(before.value, space).value.diagnostics then before
                      else Some(BaselinePayload(Baseline(version.value, current)))
    ensures Passes(after, version, run, comparison, space)
  {
    hide LinesDiagnostics, BaselinePayload, ParseEntries;
    ParsedCensusIsStorable(run.lines, version.value, space);
  }

  /** A first baseline passes the check on the tree it was made from. */
  lemma InitializedPasses(version: Text, run: MypyRun, space: int -> bool)
    requires space(SPACE) && version != [] && Diagnosed(run, space).Some?
    ensures Passes(Some(BaselinePayload(Baseline(version, Diagnosed(run, space).value))), Some(version), run, At(None), space)
  {
    hide LinesDiagnostics, BaselinePayload, Parsed;
    ParsedCensusIsStorable(run.lines, version, space);
  }

  /** A commit: its stored document, the tool version, and what mypy says of its tree. */
  datatype Commit = Commit(document: Option<Json>, version: Option<Text>, run: MypyRun)

  /** What a commit is compared with. */
  ghost function Base(commits: seq<Commit>, first: Comparison, i: nat): Comparison
    requires i < |commits|
  {
    if i == 0 then first else At(commits[i - 1].document)
  }

  ghost predicate PassesThere(commits: seq<Commit>, first: Comparison, space: int -> bool, i: nat)
    requires i < |commits|
  {
    Passes(commits[i].document, commits[i].version, commits[i].run, Base(commits, first, i), space)
  }

  /** Every commit passes the check against the one before it. */
  ghost predicate History(commits: seq<Commit>, first: Comparison, space: int -> bool) {
    forall i :: 0 <= i < |commits| ==> PassesThere(commits, first, space, i)
  }

  /** Along an accepted history the real diagnostics only shrink, under one tool version. */
  lemma {:induction false} DiagnosticsShrink(commits: seq<Commit>, first: Comparison, space: int -> bool, i: nat, j: nat)
    requires History(commits, first, space) && i <= j < |commits|
    ensures Diagnosed(commits[i].run, space).Some? && Diagnosed(commits[j].run, space).Some?
    ensures Diagnosed(commits[j].run, space).value <= Diagnosed(commits[i].run, space).value
    ensures commits[i].version == commits[j].version
    decreases j - i
  {
    hide Diagnosed, Parsed;
    assert PassesThere(commits, first, space, j);
    if i < j {
      DiagnosticsShrink(commits, first, space, i, j - 1);
      assert PassesThere(commits, first, space, j - 1);
    }
  }
}
