/** Creating an archive of uploads with its manifest, and verifying and extracting one. */
module Artifact {
  import opened Wrappers
  import opened Text
  import opened PosixPath

  type Bytes = seq<bv8>

  datatype Json =
    | Null
    | Bool(b: bool)
    | Int(n: int)
    | Real(r: real)
    | Str(s: string)
    | List(items: seq<Json>)
    | Object(fields: map<string, Json>)

  datatype Member = Member(name: string, isFile: bool, size: nat, data: Bytes)

  datatype Record = Record(path: string, digest: string, size: nat)

  predicate PrefixOk(prefix: string) {
    prefix != "" && '/' !in prefix && '\\' !in prefix
  }

  // ----- the manifest -----

  /** dict.get, with None for an absent key. */
  function Field(fields: map<string, Json>, key: string): Json {
    if key in fields then fields[key] else Null
  }

  /** What compares equal to 1 in Python. */
  predicate IsVersionOne(v: Json) {
    v == Int(1) || v == Bool(true) || v == Real(1.0)
  }

  predicate IsDigest(d: string) {
    |d| == 64 && forall k :: 0 <= k < 64 ==> '0' <= d[k] <= '9' || 'a' <= d[k] <= 'f'
  }

  predicate SafeManifestPath(s: string) {
    s != "" && !IsAbsolute(s) && ".." !in PathParts(s) && '\\' !in s && '\0' !in s
  }

  function ParseRecord(j: Json): Option<Record> {
    if !j.Object? then None
    else
      var path, digest, size := Field(j.fields, "path"), Field(j.fields, "sha256"), Field(j.fields, "size");
      if path.Str? && SafeManifestPath(path.s) && digest.Str? && IsDigest(digest.s) && size.Int? && size.n >= 0
      then Some(Record(path.s, digest.s, size.n)) else None
  }

  function PathsOf(records: seq<Record>): (paths: seq<string>)
    ensures |paths| == |records|
  {
    if records == [] then [] else PathsOf(records[..|records| - 1]) + [records[|records| - 1].path]
  }

  ghost predicate Distinct(names: seq<string>) {
    forall j, k :: 0 <= j < k < |names| ==> names[j] != names[k]
  }

  ghost predicate ManifestIs(payload: Json, records: seq<Record>) {
    && payload.Object?
    && IsVersionOne(Field(payload.fields, "schema_version"))
    && var files := Field(payload.fields, "files");
    && files.List? && |files.items| == |records|
    && (forall k :: 0 <= k < |records| ==> ParseRecord(files.items[k]) == Some(records[k]))
    && Distinct(PathsOf(records))
    && Sorted(PathsOf(records))
  }

  lemma {:induction false} PathsAt(records: seq<Record>, k: nat)
    requires k < |records|
    ensures PathsOf(records)[k] == records[k].path
  {
    if k < |records| - 1 {
      PathsAt(records[..|records| - 1], k);
    }
  }

  lemma {:induction false} SortedStep(names: seq<string>, name: string)
    requires Sorted(names)
    ensures Sorted(names + [name]) <==> names == [] || LessEq(names[|names| - 1], name)
  {
    if names != [] && LessEq(names[|names| - 1], name) {
      forall j | 0 <= j < |names|
        ensures LessEq(names[j], name)
      {
        if j < |names| - 1 {
          LessEqTransitive(names[j], names[|names| - 1], name);
        }
      }
    }
    assert names != [] ==> (names + [name])[|names| - 1] == names[|names| - 1] && (names + [name])[|names|] == name;
  }

  ghost predicate Parsed(items: seq<Json>, records: seq<Record>) {
    |items| == |records| && forall k :: 0 <= k < |records| ==> ParseRecord(items[k]) == Some(records[k])
  }

  ghost predicate Loadable(items: seq<Json>, records: seq<Record>) {
    Parsed(items, records) && Distinct(PathsOf(records))
  }

  /** The loop over the records: each must parse and bring a path not seen before. */
  method LoadRecords(items: seq<Json>) returns (r: Option<map<string, Record>>, ordered: seq<string>,
                     ghost records: seq<Record>)
    ensures r.None? ==> forall rs :: !Loadable(items, rs)
    ensures r.Some? ==> Loadable(items, records) && Indexed(records, r.value) && ordered == PathsOf(records)
  {
    hide *;
    var expected: map<string, Record> := map[];
    records, ordered := [], [];
    NoRecords();
    for k := 0 to |items|
      invariant Loadable(items[..k], records) && Indexed(records, expected) && ordered == PathsOf(records)
    {
      var record := ParseRecord(items[k]);
      if record.None? {
        Unparsable(items, k);
        return None, ordered, records;
      }
      var path := record.value.path;
      if path in expected {
        RepeatedPath(items, k, records, expected, record.value);
        return None, ordered, records;
      }
      RecordAdded(items[..k], records, expected, items[k], record.value);
      assert items[..k + 1] == items[..k] + [items[k]];
      records := records + [record.value];
      expected := expected[path := record.value];
      ordered := ordered + [path];
    }
    assert items[..|items|] == items;
    r := Some(expected);
  }

  /** The records of an acceptable manifest, in a dictionary as well as in order. */
  method LoadManifest(payload: Json) returns (r: Option<map<string, Record>>, ghost records: seq<Record>)
    ensures r.None? ==> forall rs :: !ManifestIs(payload, rs)
    ensures r.Some? ==> ManifestIs(payload, records) && Indexed(records, r.value)
  {
    hide ParseRecord, IsVersionOne, PathsOf, Distinct, Indexed, Sorted;
    records := [];
    if !payload.Object? || !IsVersionOne(Field(payload.fields, "schema_version")) || !Field(payload.fields, "files").List? {
      return None, records;
    }
    var ordered;
    r, ordered, records := LoadRecords(Field(payload.fields, "files").items);
    if r.Some? {
      var sorted := InOrder(ordered);
      OnlyTheseRecords(payload, records);
      if !sorted {
        r := None;
      }
    } else {
      ManifestLoads(payload);
    }
  }

  lemma ManifestLoads(payload: Json)
    ensures forall rs :: ManifestIs(payload, rs) ==> Loadable(Field(payload.fields, "files").items, rs)
  {
    hide ParseRecord, PathsOf, Distinct, Sorted;
  }

  lemma NoRecords()
    ensures PathsOf([]) == [] && Loadable([], []) && Indexed([], map[])
  {}

  lemma {:induction false} PathIn(records: seq<Record>, path: string)
    ensures path in PathsOf(records) <==> exists x :: x in records && x.path == path
  {
    if records != [] {
      var init, last := records[..|records| - 1], records[|records| - 1];
      assert records == init + [last];
      PathIn(init, path);
    }
  }

  lemma {:induction false} IndexedPath(records: seq<Record>, expected: map<string, Record>, path: string)
    requires Indexed(records, expected)
    ensures path in PathsOf(records) <==> path in expected
  {
    PathIn(records, path);
  }

  lemma {:induction false} RecordAdded(items: seq<Json>, records: seq<Record>, expected: map<string, Record>,
                                       item: Json, next: Record)
    requires Loadable(items, records) && Indexed(records, expected) && next.path !in expected && ParseRecord(item) == Some(next)
    ensures Loadable(items + [item], records + [next]) && Indexed(records + [next], expected[next.path := next])
    ensures PathsOf(records + [next]) == PathsOf(records) + [next.path]
  {
    hide ParseRecord;
    assert (records + [next])[..|records|] == records;
    IndexedPath(records, expected, next.path);
    hide PathsOf;
  }

  lemma Unparsable(items: seq<Json>, k: nat)
    requires k < |items| && ParseRecord(items[k]).None?
    ensures forall rs :: !Loadable(items, rs)
  {
    hide ParseRecord, PathsOf, Distinct;
  }

  lemma OnlyTheseRecords(payload: Json, records: seq<Record>)
    requires payload.Object? && Field(payload.fields, "files").List? && Parsed(Field(payload.fields, "files").items, records)
    ensures forall rs :: ManifestIs(payload, rs) ==> rs == records
  {
    hide ParseRecord, PathsOf, Sorted, Distinct;
  }

  lemma RepeatedPath(items: seq<Json>, k: nat, records: seq<Record>, expected: map<string, Record>, next: Record)
    requires k < |items| && Loadable(items[..k], records) && Indexed(records, expected)
    requires ParseRecord(items[k]) == Some(next) && next.path in expected
    ensures forall rs :: !Loadable(items, rs)
  {
    hide ParseRecord, PathsOf;
    var first := expected[next.path];
    var j :| 0 <= j < k && records[j] == first;
    assert items[..k][j] == items[j] && ParseRecord(items[j]) == Some(records[j]);
    forall rs
      ensures !Loadable(items, rs)
    {
      if Loadable(items, rs) {
        DifferentPaths(rs, j, k);
      }
    }
  }

  lemma {:induction false} DifferentPaths(records: seq<Record>, j: nat, k: nat)
    requires j < k < |records| && Distinct(PathsOf(records))
    ensures records[j].path != records[k].path
  {
    PathsAt(records, j);
    PathsAt(records, k);
  }

  method InOrder(names: seq<string>) returns (sorted: bool)
    ensures sorted <==> Sorted(names)
  {
    sorted := true;
    for k := 0 to |names|
      invariant Sorted(names[..k])
    {
      hide LessEq, Sorted;
      SortedStep(names[..k], names[k]);
      assert names[..k + 1] == names[..k] + [names[k]];
      if k > 0 && !LessEq(names[k - 1], names[k]) {
        NotSorted(names, k);
        return false;
      }
    }
    assert names[..|names|] == names;
  }

  lemma NotSorted(names: seq<string>, k: nat)
    requires 0 < k < |names| && !LessEq(names[k - 1], names[k])
    ensures !Sorted(names)
  {}

  // ----- members and extraction -----

  /** The path of a member under the prefix, or None where it is refused. */
  function MemberRelative(name: string, prefix: string): Option<string> {
    var parts := PathParts(name);
    if IsAbsolute(name) || |parts| < 2 || parts[0] != prefix || ".." in parts || '\\' in name then None
    else
      var relative := Join(parts[1..], '/');
      if SafeManifestPath(relative) then Some(relative) else None
  }

  /** Two files that cannot both be in one directory tree. */
  predicate Clash(a: string, b: string) {
    a == b || Below(PathParts(a), PathParts(b)) || Below(PathParts(b), PathParts(a))
  }

  predicate Fits(m: Member, relative: string, r: Record, hash: Bytes -> string) {
    r.path == relative && m.size == r.size && |m.data| == r.size && hash(m.data) == r.digest
  }

  ghost predicate MemberOk(m: Member, prefix: string, records: seq<Record>, hash: Bytes -> string) {
    && m.isFile
    && MemberRelative(m.name, prefix).Some?
    && exists r :: r in records && Fits(m, MemberRelative(m.name, prefix).value, r, hash)
  }

  function Extracted(archive: seq<Member>, prefix: string): map<string, Bytes> {
    if archive == [] then map[]
    else
      var last := archive[|archive| - 1];
      var before := Extracted(archive[..|archive| - 1], prefix);
      match MemberRelative(last.name, prefix)
      case None => before
      case Some(relative) => before[relative := last.data]
  }

  /** Every member is described by a record and fits in with the files before it. */
  ghost predicate MembersMatch(archive: seq<Member>, records: seq<Record>, prefix: string, hash: Bytes -> string) {
    archive == [] ||
    var init, last := archive[..|archive| - 1], archive[|archive| - 1];
    && MembersMatch(init, records, prefix, hash)
    && MemberOk(last, prefix, records, hash)
    && FitsAmong(Extracted(init, prefix), last, prefix)
  }

  ghost predicate FitsAmong(files: map<string, Bytes>, m: Member, prefix: string) {
    forall p :: p in files && MemberRelative(m.name, prefix).Some? ==> !Clash(p, MemberRelative(m.name, prefix).value)
  }

  /** What it takes for an archive and a manifest to be accepted: the manifest is well formed,
      sorted and free of duplicates, every member is a file that one record describes, no two
      members clash, and no record is left over. */
  ghost predicate Accepts(archive: seq<Member>, payload: Json, prefix: string, hash: Bytes -> string) {
    exists records :: ManifestIs(payload, records) && Complete(archive, records, prefix, hash)
  }

  ghost predicate Complete(archive: seq<Member>, records: seq<Record>, prefix: string, hash: Bytes -> string) {
    && MembersMatch(archive, records, prefix, hash)
    && forall r :: r in records ==> r.path in Extracted(archive, prefix)
  }

  /** Whether a member is taken, after some files have been extracted. */
  ghost predicate Taken(files: map<string, Bytes>, m: Member, expected: map<string, Record>, prefix: string,
                        hash: Bytes -> string) {
    && m.isFile && MemberRelative(m.name, prefix).Some?
    && var relative := MemberRelative(m.name, prefix).value;
    && relative in expected && Fits(m, relative, expected[relative].(path := relative), hash)
    && forall p :: p in files ==> !Clash(p, relative)
  }

  class ExtractDir {
    var files: map<string, Bytes>
    var occupied: bool

    /** Whether a new file can be made where nothing is in its way. */
    predicate Blocked(relative: string)
      reads this
    {
      exists p :: p in files && Clash(p, relative)
    }

    constructor ()
      ensures files == map[] && !occupied
    {
      files, occupied := map[], false;
    }
  }

  /** Checks and extracts one member. A fault is an error of the file system or the archive
      reader. */
  method ExtractMember(m: Member, expected: map<string, Record>, dir: ExtractDir, prefix: string, hash: Bytes -> string)
    returns (ok: bool, ghost fault: bool)
    modifies dir
    ensures fault ==> !ok
    ensures ok ==> m.isFile && MemberRelative(m.name, prefix).Some?
    ensures ok ==> dir.files == old(dir.files)[MemberRelative(m.name, prefix).value := m.data]
    ensures ok ==> Taken(old(dir.files), m, expected, prefix, hash)
    ensures !ok && !fault ==> !Taken(old(dir.files), m, expected, prefix, hash)
  {
    hide MemberRelative, Clash;
    ok, fault := false, false;
    if !m.isFile {
      return;
    }
    var relative := MemberRelative(m.name, prefix);
    if relative.None? || relative.value in dir.files || relative.value !in expected {
      ClashesWithItself();
      return;
    }
    var record := expected[relative.value];
    if m.size != record.size || dir.Blocked(relative.value) {
      return;
    }
    var broken: bool := *;
    if broken {
      fault := true;
      return;
    }
    dir.files := dir.files[relative.value := m.data];
    dir.occupied := true;
    ok := |m.data| == record.size && hash(m.data) == record.digest;
  }

  lemma ClashesWithItself()
    ensures forall p :: Clash(p, p)
  {}

  method VerifyArtifact(archive: seq<Member>, payload: Json, dir: ExtractDir, prefix: string, hash: Bytes -> string)
    returns (ok: bool, ghost fault: bool)
    requires dir.files != map[] ==> dir.occupied
    modifies dir
    ensures fault ==> !ok
    ensures !fault ==> (ok <==> PrefixOk(prefix) && !old(dir.occupied) && Accepts(archive, payload, prefix, hash))
    ensures ok ==> dir.files == Extracted(archive, prefix)
  {
    ok, fault := false, false;
    if prefix == "" || '/' in prefix || '\\' in prefix {
      return;
    }
    hide MemberRelative, Clash, ManifestIs, Extracted, MembersMatch, Accepts, Indexed, Taken;
    var loaded, records := LoadManifest(payload);
    if loaded.None? || dir.occupied {
      return;
    }
    var expected := loaded.value;
    for k := 0 to |archive|
      invariant dir.files == Extracted(archive[..k], prefix)
      invariant MembersMatch(archive[..k], records, prefix, hash)
      invariant !fault
    {
      var done;
      done, fault := ExtractMember(archive[k], expected, dir, prefix, hash);
      ExtractedStep(archive, k, prefix);
      OneMoreMember(archive, k, records, expected, prefix, hash);
      if !done {
        if !fault {
          MemberRefused(archive, k, payload, records, expected, prefix, hash);
        }
        return;
      }
    }
    assert archive[..|archive|] == archive;
    ok := forall p :: p in expected ==> p in dir.files;
    WhenComplete(archive, payload, records, expected, prefix, hash);
  }

  ghost predicate Indexed(records: seq<Record>, expected: map<string, Record>) {
    && (forall p :: p in expected ==> expected[p] in records && expected[p].path == p)
    && (forall x :: x in records ==> x.path in expected && expected[x.path] == x)
  }

  lemma {:induction false} ExtractedStep(archive: seq<Member>, k: nat, prefix: string)
    requires k < |archive|
    ensures MemberRelative(archive[k].name, prefix).Some? ==>
      Extracted(archive[..k + 1], prefix)
      == Extracted(archive[..k], prefix)[MemberRelative(archive[k].name, prefix).value := archive[k].data]
  {
    hide MemberRelative;
    assert archive[..k + 1][..k] == archive[..k];
  }

  lemma TakenIff(files: map<string, Bytes>, m: Member, records: seq<Record>, expected: map<string, Record>, prefix: string,
                 hash: Bytes -> string)
    requires Indexed(records, expected)
    ensures Taken(files, m, expected, prefix, hash) <==> MemberOk(m, prefix, records, hash) && FitsAmong(files, m, prefix)
  {
    hide MemberRelative, Clash;
  }

  lemma {:induction false} OneMoreMember(archive: seq<Member>, k: nat, records: seq<Record>, expected: map<string,
                                         Record>, prefix: string,
                                         hash: Bytes -> string)
    requires k < |archive| && Indexed(records, expected) && MembersMatch(archive[..k], records, prefix, hash)
    ensures Taken(Extracted(archive[..k], prefix), archive[k], expected, prefix, hash)
      <==> MembersMatch(archive[..k + 1], records, prefix, hash)
  {
    TakenIff(Extracted(archive[..k], prefix), archive[k], records, expected, prefix, hash);
    hide MemberRelative, Clash, Extracted, MemberOk, Taken, Indexed, FitsAmong;
    assert archive[..k + 1][..k] == archive[..k];
  }

  lemma {:induction false} PrefixMatches(archive: seq<Member>, k: nat, records: seq<Record>, prefix: string,
                                         hash: Bytes -> string)
    requires k <= |archive| && MembersMatch(archive, records, prefix, hash)
    ensures MembersMatch(archive[..k], records, prefix, hash)
    decreases |archive|
  {
    hide Extracted, MemberOk, FitsAmong;
    if k < |archive| {
      PrefixMatches(archive[..|archive| - 1], k, records, prefix, hash);
      assert archive[..|archive| - 1][..k] == archive[..k];
    } else {
      assert archive[..k] == archive;
    }
  }

  lemma {:induction false} MemberRefused(archive: seq<Member>, k: nat, payload: Json, records: seq<Record>,
                                         expected: map<string, Record>,
                                         prefix: string, hash: Bytes -> string)
    requires k < |archive| && ManifestIs(payload, records) && !MembersMatch(archive[..k + 1], records, prefix, hash)
    ensures !Accepts(archive, payload, prefix, hash)
  {
    OneManifest(payload, records);
    hide Extracted, MembersMatch, ManifestIs;
    if Complete(archive, records, prefix, hash) {
      PrefixMatches(archive, k + 1, records, prefix, hash);
    }
  }

  lemma OneManifest(payload: Json, records: seq<Record>)
    requires ManifestIs(payload, records)
    ensures forall rs :: ManifestIs(payload, rs) ==> rs == records
  {
    OnlyTheseRecords(payload, records);
  }

  lemma {:induction false} WhenComplete(archive: seq<Member>, payload: Json, records: seq<Record>,
                                        expected: map<string, Record>, prefix: string, hash: Bytes -> string)
    requires ManifestIs(payload, records) && Indexed(records, expected) && MembersMatch(archive, records, prefix, hash)
    ensures (forall p :: p in expected ==> p in Extracted(archive, prefix)) <==> Accepts(archive, payload, prefix, hash)
  {
    OneManifest(payload, records);
    hide Extracted, MembersMatch, ManifestIs;
    assert Accepts(archive, payload, prefix, hash) <==> Complete(archive, records, prefix, hash);
  }
}
