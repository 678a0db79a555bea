/** Creating the archive: a scan, a read of every file with its state checked before and after,
    a second scan, and two renames; and taking all of it back when something raises. */
module ArtifactCreation {
  import opened Wrappers
  import opened Text
  import opened PosixPath
  import opened Artifact

  /** What stat says about a file and what its fingerprint holds. */
  datatype Stat = Stat(device: int, inode: int, size: nat, mtime: int)

  /** A directory entry found by the walk. Anything but a regular file is refused. */
  datatype Entry = Entry(parts: seq<string>, regular: bool, stat: Stat)

  datatype SourceFile = SourceFile(relative: string, stat: Stat)

  function RelativeName(parts: seq<string>): Option<string> {
    if parts == [] || "" in parts || "." in parts || ".." in parts then None
    else
      var name := Join(parts, '/');
      if '\\' in name || '\0' in name then None else Some(name)
  }

  // ----- the scan -----

  function NamesOf(files: seq<SourceFile>): seq<string> {
    seq(|files|, i requires 0 <= i < |files| => files[i].relative)
  }

  ghost predicate SortedFiles(files: seq<SourceFile>) {
    forall j, k :: 0 <= j < k < |files| ==> LessEq(files[j].relative, files[k].relative)
  }

  function SourceFileOf(e: Entry): Option<SourceFile> {
    if !e.regular then None
    else match RelativeName(e.parts)
         case None => None
         case Some(name) => Some(SourceFile(name, e.stat))
  }

  /** Puts a file where it belongs in a sorted list. */
  method InsertSorted(files: seq<SourceFile>, f: SourceFile) returns (r: seq<SourceFile>)
    requires SortedFiles(files)
    ensures SortedFiles(r) && multiset(r) == multiset(files) + multiset{f}
  {
    hide LessEq;
    var k := |files|;
    while k > 0 && !LessEq(files[k - 1].relative, f.relative)
      invariant 0 <= k <= |files|
      invariant forall j :: k <= j < |files| ==> LessEq(f.relative, files[j].relative)
    {
      LessEqTotal(files[k - 1].relative, f.relative);
      k := k - 1;
    }
    r := files[..k] + [f] + files[k..];
    InsertedIsSorted(files, k, f);
    assert files == files[..k] + files[k..];
  }

  lemma InsertedIsSorted(files: seq<SourceFile>, n: nat, f: SourceFile)
    requires SortedFiles(files) && n <= |files|
    requires n > 0 ==> LessEq(files[n - 1].relative, f.relative)
    requires forall j :: n <= j < |files| ==> LessEq(f.relative, files[j].relative)
    ensures SortedFiles(files[..n] + [f] + files[n..])
  {
    hide LessEq;
    forall j | 0 <= j < n
      ensures LessEq(files[j].relative, f.relative)
    {
      if j < n - 1 {
        LessEqTransitive(files[j].relative, files[n - 1].relative, f.relative);
      }
    }
  }

  /** The regular files of a tree, ordered by name. */
  ghost predicate Scanned(entries: seq<Entry>, files: seq<SourceFile>) {
    && SortedFiles(files)
    && exists found: seq<SourceFile> :: FoundIn(entries, found) && multiset(found) == multiset(files)
  }

  ghost predicate FoundIn(entries: seq<Entry>, found: seq<SourceFile>) {
    |found| == |entries| && forall k :: 0 <= k < |entries| ==> SourceFileOf(entries[k]) == Some(found[k])
  }

  /** The walk fails on a root that is no directory, which is None here, and on any entry that
      is not a regular file with a portable name. */
  method ScanSource(listing: Option<seq<Entry>>) returns (r: Option<seq<SourceFile>>)
    ensures r.Some? ==> listing.Some? && Scanned(listing.value, r.value)
    ensures r.None? ==> listing.None? || exists k :: 0 <= k < |listing.value| && SourceFileOf(listing.value[k]).None?
  {
    if listing.None? {
      return None;
    }
    hide SourceFileOf, SortedFiles;
    var entries := listing.value;
    var files: seq<SourceFile> := [];
    ghost var found: seq<SourceFile> := [];
    assert SortedFiles([]) by {
      NothingToSort();
    }
    for k := 0 to |entries|
      invariant SortedFiles(files) && FoundIn(entries[..k], found) && multiset(found) == multiset(files)
    {
      var f := SourceFileOf(entries[k]);
      if f.None? {
        return None;
      }
      files := InsertSorted(files, f.value);
      assert entries[..k + 1] == entries[..k] + [entries[k]];
      found := found + [f.value];
    }
    assert entries[..|entries|] == entries;
    r := Some(files);
  }

  lemma NothingToSort()
    ensures SortedFiles([])
  {}

  /** Every entry can be archived, and no two have one name. */
  ghost predicate GoodListing(entries: seq<Entry>) {
    && (forall k :: 0 <= k < |entries| ==> SourceFileOf(entries[k]).Some?)
    && (forall j, k :: 0 <= j < k < |entries| ==>
          SourceFileOf(entries[j]).value.relative != SourceFileOf(entries[k]).value.relative)
  }

  lemma {:induction false} OneOrder(a: seq<SourceFile>, b: seq<SourceFile>)
    requires SortedFiles(a) && SortedFiles(b) && multiset(a) == multiset(b)
    requires forall f, g :: f in a && g in a && f.relative == g.relative ==> f == g
    ensures a == b
  {
    hide LessEq, SortedFiles;
    SameSize(a, b);
    if a != [] {
      var n := |a| - 1;
      SameLast(a, b);
      WithoutLast(a);
      WithoutLast(b);
      assert a == a[..n] + [a[n]] && b == b[..n] + [b[n]];
      assert forall f :: f in a[..n] ==> f in a;
      OneOrder(a[..n], b[..n]);
    }
  }

  lemma SameSize(a: seq<SourceFile>, b: seq<SourceFile>)
    requires multiset(a) == multiset(b)
    ensures |a| == |b|
  {
    assert |multiset(a)| == |multiset(b)|;
  }

  lemma WithoutLast(a: seq<SourceFile>)
    requires a != []
    ensures multiset(a[..|a| - 1]) == multiset(a) - multiset{a[|a| - 1]}
    ensures SortedFiles(a) ==> SortedFiles(a[..|a| - 1])
  {
    hide LessEq;
    assert a == a[..|a| - 1] + [a[|a| - 1]];
  }

  lemma SameLast(a: seq<SourceFile>, b: seq<SourceFile>)
    requires SortedFiles(a) && SortedFiles(b) && multiset(a) == multiset(b) && a != [] && |a| == |b|
    requires forall f, g :: f in a && g in a && f.relative == g.relative ==> f == g
    ensures a[|a| - 1] == b[|b| - 1]
  {
    hide LessEq, SortedFiles;
    var n := |a| - 1;
    assert a[n] in multiset(b) && b[n] in multiset(a);
    var j :| 0 <= j <= n && b[j] == a[n];
    var k :| 0 <= k <= n && a[k] == b[n];
    LastIsGreatest(a, k);
    LastIsGreatest(b, j);
    LessEqAntisymmetric(a[n].relative, b[n].relative);
  }

  lemma {:induction false} LessEqReflexive(a: string)
    ensures LessEq(a, a)
  {
    if a != "" {
      LessEqReflexive(a[1..]);
    }
  }

  lemma LastIsGreatest(files: seq<SourceFile>, k: nat)
    requires SortedFiles(files) && k < |files|
    ensures LessEq(files[k].relative, files[|files| - 1].relative)
  {
    LessEqReflexive(files[k].relative);
  }

  /** A listing without repeated names has one scan. */
  lemma ScanDetermined(entries: seq<Entry>, a: seq<SourceFile>, b: seq<SourceFile>)
    requires GoodListing(entries) && Scanned(entries, a) && Scanned(entries, b)
    ensures a == b
  {
    hide SourceFileOf, SortedFiles;
    var x: seq<SourceFile> :| FoundIn(entries, x) && multiset(x) == multiset(a);
    var y: seq<SourceFile> :| FoundIn(entries, y) && multiset(y) == multiset(b);
    assert x == y;
    forall f, g | f in a && g in a && f.relative == g.relative
      ensures f == g
    {
      assert f in multiset(x) && g in multiset(x);
      var j :| 0 <= j < |x| && x[j] == f;
      var k :| 0 <= k < |x| && x[k] == g;
      assert j == k;
    }
    OneOrder(a, b);
  }

  // ----- reading one file -----

  const BLOCK: nat := 16384

  /** Hashes and counts what is read through it. */
  class HashingReader {
    const raw: Bytes
    var hashed: Bytes
    var bytesRead: nat

    constructor (raw: Bytes)
      ensures this.raw == raw && hashed == [] && bytesRead == 0
    {
      this.raw, hashed, bytesRead := raw, [], 0;
    }

    /** What went through so far is the beginning of the file, and was counted. */
    predicate Valid()
      reads this
    {
      bytesRead <= |raw| && hashed == raw[..bytesRead]
    }

    method Read(size: nat) returns (data: Bytes)
      requires Valid()
      modifies this
      ensures Valid()
      ensures |data| == bytesRead - old(bytesRead) && data == raw[old(bytesRead)..bytesRead]
      ensures |data| == if old(bytesRead) + size <= |raw| then size else |raw| - old(bytesRead)
    {
      var end := if bytesRead + size <= |raw| then bytesRead + size else |raw|;
      data := raw[bytesRead..end];
      assert raw[..end] == raw[..bytesRead] + data;
      hashed := hashed + data;
      bytesRead := end;
    }
  }

  /** Copies exactly the announced number of bytes into the archive, block by block; a shorter
      file is an error. */
  method AddFile(reader: HashingReader, size: nat) returns (data: Option<Bytes>)
    requires reader.Valid() && reader.bytesRead == 0
    modifies reader
    ensures reader.Valid()
    ensures data.Some? <==> size <= |reader.raw|
    ensures data.Some? ==> reader.bytesRead == size && data.value == reader.hashed == reader.raw[..size]
  {
    var copied: Bytes := [];
    while |copied| < size
      invariant reader.Valid() && |copied| == reader.bytesRead <= size && copied == reader.hashed
      decreases size - |copied|
    {
      var want := if size - |copied| < BLOCK then size - |copied| else BLOCK;
      var block := reader.Read(want);
      if |block| < want {
        return None;
      }
      copied := copied + block;
    }
    data := Some(copied);
  }

  /** What opening, reading and looking again at a file gave; None is an error. */
  datatype Observed = Observed(atOpen: Option<Stat>, raw: Bytes, afterRead: Option<Stat>)

  /** The file was the one scanned, before and after, and had all its bytes. */
  predicate Steady(f: SourceFile, o: Observed) {
    o.atOpen == Some(f.stat) && o.afterRead == Some(f.stat) && f.stat.size <= |o.raw|
  }

  const NAME_FIELD: nat := 100

  /** Names that do not fit the header's field, or are not ASCII, travel in an extended header,
      which keeps them whole; the field itself ends at the first NUL. */
  predicate KeptWhole(name: string) {
    '\0' !in name || |name| > NAME_FIELD || exists k :: 0 <= k < |name| && name[k] >= '\U{0080}'
  }

  function BeforeNul(name: string): (s: string)
    ensures s <= name && '\0' !in s
    ensures |s| < |name| ==> name[|s|] == '\0'
  {
    if name == "" || name[0] == '\0' then "" else [name[0]] + BeforeNul(name[1..])
  }

  /** The name a reader of the archive sees. */
  function NameRead(name: string): string {
    if KeptWhole(name) then name else BeforeNul(name)
  }

  method ArchiveFile(f: SourceFile, o: Observed, prefix: string, hash: Bytes -> string) returns (r: Option<(Member, Record)>)
    ensures r.Some? <==> Steady(f, o)
    ensures r.Some? ==> r.value == (MemberFor(f, o, prefix), RecordFor(f, o, hash))
  {
    if o.atOpen != Some(f.stat) {
      return None;
    }
    var reader := new HashingReader(o.raw);
    var data := AddFile(reader, f.stat.size);
    if data.None? || reader.bytesRead != f.stat.size || o.afterRead != Some(f.stat) {
      return None;
    }
    r := Some((Member(NameRead(prefix + "/" + f.relative), true, f.stat.size, data.value),
               Record(f.relative, hash(reader.hashed), f.stat.size)));
  }

  function Contents(f: SourceFile, o: Observed): Bytes {
    if f.stat.size <= |o.raw| then o.raw[..f.stat.size] else o.raw
  }

  function MemberFor(f: SourceFile, o: Observed, prefix: string): Member {
    Member(NameRead(prefix + "/" + f.relative), true, f.stat.size, Contents(f, o))
  }

  function RecordFor(f: SourceFile, o: Observed, hash: Bytes -> string): Record {
    Record(f.relative, hash(Contents(f, o)), f.stat.size)
  }

  // ----- the outputs -----

  function RecordJson(r: Record): Json {
    Object(map["path" := Str(r.path), "sha256" := Str(r.digest), "size" := Int(r.size)])
  }

  function ManifestJson(records: seq<Record>): Json {
    Object(map["schema_version" := Int(1), "files" := List(RecordsJson(records))])
  }

  function RecordsJson(records: seq<Record>): (items: seq<Json>)
    ensures |items| == |records|
    ensures forall k :: 0 <= k < |records| ==> items[k] == RecordJson(records[k])
  {
    if records == [] then []
    else
      assert forall k :: 0 <= k < |records| - 1 ==> records[..|records| - 1][k] == records[k];
      RecordsJson(records[..|records| - 1]) + [RecordJson(records[|records| - 1])]
  }

  function Members(files: seq<SourceFile>, seen: seq<Observed>, prefix: string): seq<Member>
    requires |files| <= |seen|
  {
    if files == [] then []
    else
      var n := |files| - 1;
      Members(files[..n], seen, prefix) + [MemberFor(files[n], seen[n], prefix)]
  }

  function Records(files: seq<SourceFile>, seen: seq<Observed>, hash: Bytes -> string): seq<Record>
    requires |files| <= |seen|
  {
    if files == [] then []
    else
      var n := |files| - 1;
      Records(files[..n], seen, hash) + [RecordFor(files[n], seen[n], hash)]
  }

  class Outputs {
    var archive: Option<seq<Member>>
    var manifest: Option<Json>
    var temporaries: nat

    constructor ()
      ensures archive == None && manifest == None && temporaries == 0
    {
      archive, manifest, temporaries := None, None, 0;
    }
  }

  method ArchiveAll(files: seq<SourceFile>, seen: seq<Observed>, prefix: string, hash: Bytes -> string)
    returns (r: Option<(seq<Member>, seq<Record>)>)
    requires |seen| >= |files|
    ensures r.Some? <==> forall k :: 0 <= k < |files| ==> Steady(files[k], seen[k])
    ensures r.Some? ==> r.value == (Members(files, seen, prefix), Records(files, seen, hash))
  {
    hide Steady, MemberFor, RecordFor;
    var members: seq<Member>, records: seq<Record> := [], [];
    for k := 0 to |files|
      invariant forall j :: 0 <= j < k ==> Steady(files[j], seen[j])
      invariant members == Members(files[..k], seen, prefix) && records == Records(files[..k], seen, hash)
    {
      assert files[..k + 1][..k] == files[..k];
      var one := ArchiveFile(files[k], seen[k], prefix, hash);
      if one.None? {
        return None;
      }
      members, records := members + [one.value.0], records + [one.value.1];
    }
    assert files[..|files|] == files;
    r := Some((members, records));
  }

  /** The whole of creation. A fault is an error of the file system at any write; a fault while
      taking things back can leave what it was to remove. */
  method CreateArtifact(out: Outputs, prefix: string, outside: bool, first: Option<seq<Entry>>, seen: seq<Observed>,
                        second: Option<seq<Entry>>, hash: Bytes -> string)
    returns (ok: bool, ghost fault: bool, ghost stuck: bool, ghost files: seq<SourceFile>)
    requires first.Some? ==> |seen| >= |first.value|
    modifies out
    ensures |files| <= |seen|
    ensures ok ==> out.archive == Some(Members(files, seen, prefix))
    ensures ok ==> out.manifest == Some(ManifestJson(Records(files, seen, hash)))
    ensures ok ==> first.Some? && Scanned(first.value, files) && second.Some? && Scanned(second.value, files)
    ensures ok ==> PrefixOk(prefix) && outside && old(out.archive.None? && out.manifest.None?)
    ensures ok ==> forall k :: 0 <= k < |files| ==> Steady(files[k], seen[k])
    ensures ok ==> out.temporaries == old(out.temporaries)
    ensures !ok ==> out.manifest == old(out.manifest)
    ensures !ok && !stuck ==> out.archive == old(out.archive)
    ensures !ok && old(out.archive.Some? || out.manifest.Some?) ==> out.archive == old(out.archive)
    ensures !ok && !fault && PrefixOk(prefix) && outside && old(out.archive.None? && out.manifest.None?) ==>
      first.None? || second != first || !GoodListing(first.value) || exists k :: 0 <= k < |files| && !Steady(files[k], seen[k])
  {
    ok, fault, stuck, files := false, false, false, [];
    if !PrefixOk(prefix) || !outside || out.archive.Some? || out.manifest.Some? {
      return;
    }
    var initial := ScanSource(first);
    if initial.None? {
      return;
    }
    files := initial.value;
    ScannedCount(first.value, files);
    out.temporaries := out.temporaries + 2;
    var archived := ArchiveAll(initial.value, seen, prefix, hash);
    var again := ScanSource(second);
    var writeFault: bool, archiveFault: bool, manifestFault: bool := *, *, *;
    if again.Some? && second == first && GoodListing(first.value) {
      ScanDetermined(first.value, initial.value, again.value);
    }
    if archived.Some? && again == initial && !writeFault && !archiveFault {
      out.archive, out.temporaries := Some(archived.value.0), out.temporaries - 1;
      if !manifestFault {
        out.manifest, out.temporaries := Some(ManifestJson(archived.value.1)), out.temporaries - 1;
        return true, false, false, files;
      }
    }
    fault := writeFault || archiveFault || manifestFault;
    var cleanupFault: bool := *;
    if cleanupFault {
      stuck := true;
      return;
    }
    out.temporaries := out.temporaries - if out.archive.Some? then 1 else 2;
    out.archive, out.manifest := None, None;
  }

  lemma ScannedCount(entries: seq<Entry>, files: seq<SourceFile>)
    requires Scanned(entries, files)
    ensures |files| == |entries|
  {
    var found: seq<SourceFile> :| FoundIn(entries, found) && multiset(found) == multiset(files);
    assert |multiset(found)| == |multiset(files)|;
  }
}
