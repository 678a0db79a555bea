/** Verification undoes creation, and what verification accepts is exact. */
module ArtifactRoundTrip {
  import opened Wrappers
  import opened Text
  import opened PosixPath
  import opened Artifact
  import opened ArtifactCreation

  /** A relative path in the form in which it is made: clean parts joined by single slashes. */
  ghost predicate NormalForm(s: string) {
    PathParts(s) != [] && CleanParts(PathParts(s)) && s == Join(PathParts(s), '/') && '\\' !in s && '\0' !in s
  }

  // ----- what is accepted is exact -----

  lemma RelativeIsNormal(name: string, prefix: string)
    requires MemberRelative(name, prefix).Some?
    ensures NormalForm(MemberRelative(name, prefix).value)
  {
    var parts := PathParts(name);
    PathPartsClean(name);
    assert CleanParts(parts[1..]) by {
      hide CleanPart;
      assert forall k :: 0 <= k < |parts[1..]| ==> parts[1..][k] == parts[k + 1];
    }
    PartsOfJoin(parts[1..]);
  }

  /** Each member's path, and the bytes found there after extraction. */
  ghost predicate Landed(archive: seq<Member>, k: nat, prefix: string, files: map<string, Bytes>)
    requires k < |archive|
  {
    var relative := MemberRelative(archive[k].name, prefix);
    relative.Some? && relative.value in files && files[relative.value] == archive[k].data
  }

  lemma {:induction false} AllLanded(archive: seq<Member>, records: seq<Record>, prefix: string, hash: Bytes -> string)
    requires MembersMatch(archive, records, prefix, hash)
    ensures forall k :: 0 <= k < |archive| ==> Landed(archive, k, prefix, Extracted(archive, prefix))
    ensures forall p :: p in Extracted(archive, prefix) ==>
      exists k :: 0 <= k < |archive| && MemberRelative(archive[k].name, prefix) == Some(p)
    ensures |Extracted(archive, prefix)| == |archive|
  {
    hide MemberRelative, Clash, Fits;
    if archive != [] {
      var init, last := archive[..|archive| - 1], archive[|archive| - 1];
      AllLanded(init, records, prefix, hash);
      ClashesWithItself();
      var before := Extracted(init, prefix);
      var relative := MemberRelative(last.name, prefix).value;
      assert relative !in before;
      OneMoreKey(before, relative, last.data);
      forall k | 0 <= k < |archive|
        ensures Landed(archive, k, prefix, Extracted(archive, prefix))
      {
        if k < |init| {
          assert init[k] == archive[k] && Landed(init, k, prefix, before);
        }
      }
      forall p | p in before
        ensures exists k :: 0 <= k < |archive| && MemberRelative(archive[k].name, prefix) == Some(p)
      {
        var k :| 0 <= k < |init| && MemberRelative(init[k].name, prefix) == Some(p);
        assert archive[k] == init[k];
      }
      assert archive[|archive| - 1] == last;
    }
  }

  lemma OneMoreKey(files: map<string, Bytes>, path: string, data: Bytes)
    requires path !in files
    ensures |files[path := data]| == |files| + 1
  {
    assert files[path := data].Keys == files.Keys + {path};
    assert |files[path := data].Keys| == |files.Keys| + 1;
  }

  lemma {:induction false} EachMemberOk(archive: seq<Member>, records: seq<Record>, prefix: string,
                                        hash: Bytes -> string, k: nat)
    requires MembersMatch(archive, records, prefix, hash) && k < |archive|
    ensures MemberOk(archive[k], prefix, records, hash)
  {
    hide MemberOk, FitsAmong, Extracted;
    if k < |archive| - 1 {
      EachMemberOk(archive[..|archive| - 1], records, prefix, hash, k);
    }
  }

  /** The file extracted for a record. */
  ghost predicate Restored(r: Record, files: map<string, Bytes>, hash: Bytes -> string) {
    r.path in files && |files[r.path]| == r.size && hash(files[r.path]) == r.digest && NormalForm(r.path)
  }

  /** Acceptance of any archive and manifest means that the paths of the manifest, of the
      members and of the extracted files are one and the same set, each in normal form, and
      every file has the recorded size and digest. */
  lemma {:induction false} AcceptanceIsExact(archive: seq<Member>, payload: Json, records: seq<Record>,
                                             prefix: string, hash: Bytes -> string)
    requires ManifestIs(payload, records) && Accepts(archive, payload, prefix, hash)
    ensures forall r :: r in records ==> Restored(r, Extracted(archive, prefix), hash)
    ensures forall p :: p in Extracted(archive, prefix) ==> exists r :: r in records && r.path == p
    ensures forall k :: 0 <= k < |archive| ==> archive[k].isFile && Landed(archive, k, prefix, Extracted(archive, prefix))
    ensures |archive| == |records| == |Extracted(archive, prefix)|
  {
    OneManifest(payload, records);
    assert Complete(archive, records, prefix, hash) && Distinct(PathsOf(records));
    hide ManifestIs, MemberRelative, Clash, NormalForm;
    AllLanded(archive, records, prefix, hash);
    var files := Extracted(archive, prefix);
    hide Extracted;
    forall k | 0 <= k < |archive|
      ensures MemberOk(archive[k], prefix, records, hash)
    {
      EachMemberOk(archive, records, prefix, hash, k);
    }
    hide MembersMatch;
    forall r | r in records
      ensures Restored(r, files, hash)
    {
      var k :| 0 <= k < |archive| && MemberRelative(archive[k].name, prefix) == Some(r.path);
      assert Landed(archive, k, prefix, files);
      RelativeIsNormal(archive[k].name, prefix);
      var x :| x in records && Fits(archive[k], r.path, x, hash);
      OneRecordPerPath(records, x, r);
    }
    SameNumber(records, files);
  }

  lemma {:induction false} OneRecordPerPath(records: seq<Record>, a: Record, b: Record)
    requires Distinct(PathsOf(records)) && a in records && b in records && a.path == b.path
    ensures a == b
  {
    var j :| 0 <= j < |records| && records[j] == a;
    var k :| 0 <= k < |records| && records[k] == b;
    PathsAt(records, j);
    PathsAt(records, k);
    hide PathsOf;
  }

  lemma {:induction false} SameNumber(records: seq<Record>, files: map<string, Bytes>)
    requires Distinct(PathsOf(records))
    requires forall r :: r in records ==> r.path in files
    requires forall p :: p in files ==> exists r :: r in records && r.path == p
    ensures |records| == |files|
  {
    var paths := PathsOf(records);
    forall p
      ensures p in paths <==> p in files
    {
      PathIn(records, p);
    }
    hide *;
    KeysCounted(paths, files);
  }

  lemma KeysCounted(paths: seq<string>, files: map<string, Bytes>)
    requires Distinct(paths) && forall p :: p in paths <==> p in files
    ensures |paths| == |files|
  {
    DistinctCount(paths);
    assert (set p | p in paths) == files.Keys;
  }

  lemma {:induction false} DistinctCount(names: seq<string>)
    requires Distinct(names)
    ensures |set p | p in names| == |names|
  {
    if names != [] {
      var init, last := names[..|names| - 1], names[|names| - 1];
      assert names == init + [last];
      DistinctCount(init);
      assert last !in init;
      assert (set p | p in names) == (set p | p in init) + {last};
    }
  }

  // ----- what is created is accepted -----

  /** The files of one directory tree: no name has a slash in it, and nothing lies below a file. */
  ghost predicate TreeListing(entries: seq<Entry>) {
    && (forall k :: 0 <= k < |entries| ==> NoneContains(entries[k].parts, '/'))
    && (forall j, k :: 0 <= j < |entries| && 0 <= k < |entries| && j != k ==>
          entries[j].parts != entries[k].parts && !Below(entries[j].parts, entries[k].parts))
  }

  ghost predicate TreeFiles(files: seq<SourceFile>) {
    && (forall k :: 0 <= k < |files| ==> NormalForm(files[k].relative))
    && (forall j, k :: 0 <= j < k < |files| ==> !Clash(files[j].relative, files[k].relative))
  }

  lemma NameIsNormal(parts: seq<string>)
    requires RelativeName(parts).Some? && NoneContains(parts, '/')
    ensures NormalForm(RelativeName(parts).value) && PathParts(RelativeName(parts).value) == parts
  {
    assert CleanParts(parts);
    PartsOfJoin(parts);
  }

  lemma {:induction false} CountOnce(files: seq<SourceFile>, i: nat)
    requires i < |files| && forall j, k :: 0 <= j < k < |files| ==> files[j] != files[k]
    ensures multiset(files)[files[i]] == 1
  {
    assert files == files[..i] + [files[i]] + files[i + 1..];
    assert files[i] !in files[..i] && files[i] !in files[i + 1..];
  }

  lemma CountTwice(files: seq<SourceFile>, j: nat, k: nat)
    requires j < k < |files| && files[j] == files[k]
    ensures multiset(files)[files[j]] >= 2
  {
    assert files == files[..k] + [files[k]] + files[k + 1..];
    assert files[j] in files[..k];
  }

  lemma FoundTree(entries: seq<Entry>, found: seq<SourceFile>)
    requires FoundIn(entries, found) && TreeListing(entries)
    ensures TreeFiles(found)
  {
    forall k | 0 <= k < |found|
      ensures NormalForm(found[k].relative) && PathParts(found[k].relative) == entries[k].parts
    {
      assert SourceFileOf(entries[k]) == Some(found[k]);
      NameIsNormal(entries[k].parts);
    }
    hide NormalForm, SourceFileOf, PathParts;
    forall j, k | 0 <= j < k < |found|
      ensures !Clash(found[j].relative, found[k].relative)
    {
      assert entries[j].parts != entries[k].parts;
    }
  }

  lemma PermutedTree(found: seq<SourceFile>, files: seq<SourceFile>)
    requires TreeFiles(found) && multiset(found) == multiset(files)
    ensures TreeFiles(files)
  {
    hide NormalForm;
    ClashesWithItself();
    ClashSymmetric();
    hide Clash;
    forall k | 0 <= k < |files|
      ensures files[k] in found
    {
      assert files[k] in multiset(found);
    }
    forall j, k | 0 <= j < k < |files|
      ensures !Clash(files[j].relative, files[k].relative)
    {
      var x :| 0 <= x < |found| && found[x] == files[j];
      var y :| 0 <= y < |found| && found[y] == files[k];
      if x == y {
        CountTwice(files, j, k);
        CountOnce(found, x);
      }
    }
  }

  lemma ClashSymmetric()
    ensures forall a, b :: Clash(a, b) ==> Clash(b, a)
  {}

  lemma ScannedTree(entries: seq<Entry>, files: seq<SourceFile>)
    requires Scanned(entries, files) && TreeListing(entries)
    ensures TreeFiles(files)
  {
    hide TreeListing, TreeFiles, FoundIn;
    var found: seq<SourceFile> :| FoundIn(entries, found) && multiset(found) == multiset(files);
    FoundTree(entries, found);
    PermutedTree(found, files);
  }

  // ----- the manifest of what is created -----

  ghost predicate HashIsHex(hash: Bytes -> string) {
    forall data :: IsDigest(hash(data))
  }

  lemma NoDotsIn(parts: seq<string>)
    requires CleanParts(parts)
    ensures "." !in parts && ".." !in parts
  {}

  lemma NormalIsSafe(s: string)
    requires NormalForm(s)
    ensures SafeManifestPath(s)
  {
    var parts := PathParts(s);
    JoinNotAbsolute(parts);
    NoDotsIn(parts);
  }

  lemma RecordReadsBack(r: Record)
    requires SafeManifestPath(r.path) && IsDigest(r.digest)
    ensures ParseRecord(RecordJson(r)) == Some(r)
  {
    hide SafeManifestPath, IsDigest;
  }

  lemma {:induction false} RecordsAt(files: seq<SourceFile>, seen: seq<Observed>, prefix: string, hash: Bytes -> string, k: nat)
    requires k < |files| <= |seen|
    ensures |Records(files, seen, hash)| == |Members(files, seen, prefix)| == |files|
    ensures Records(files, seen, hash)[k] == RecordFor(files[k], seen[k], hash)
    ensures Members(files, seen, prefix)[k] == MemberFor(files[k], seen[k], prefix)
  {
    hide RecordFor, MemberFor;
    var n := |files| - 1;
    if n > 0 {
      RecordsAt(files[..n], seen, prefix, hash, if k < n then k else 0);
    }
  }

  lemma {:induction false} ManifestReadsBack(files: seq<SourceFile>, seen: seq<Observed>, hash: Bytes -> string)
    requires |files| <= |seen| && SortedFiles(files) && TreeFiles(files) && HashIsHex(hash)
    ensures ManifestIs(ManifestJson(Records(files, seen, hash)), Records(files, seen, hash))
  {
    var records := Records(files, seen, hash);
    var paths := PathsOf(records);
    hide LessEq, NormalForm, Clash, PathsOf, Records, SafeManifestPath, IsDigest, ParseRecord, RecordJson;
    RecordCount(files, seen, hash);
    forall k | 0 <= k < |records|
      ensures paths[k] == files[k].relative && ParseRecord(RecordJson(records[k])) == Some(records[k])
    {
      PathsAt(records, k);
      RecordsAt(files, seen, "", hash, k);
      NormalIsSafe(files[k].relative);
      RecordReadsBack(records[k]);
    }
    ClashesWithItself();
    assert Distinct(paths) && Sorted(paths);
    hide Distinct, Sorted, TreeFiles, SortedFiles;
  }

  lemma {:induction false} RecordCount(files: seq<SourceFile>, seen: seq<Observed>, hash: Bytes -> string)
    requires |files| <= |seen|
    ensures |Records(files, seen, hash)| == |files|
  {
    if files != [] {
      RecordsAt(files, seen, "", hash, 0);
    }
  }

  // ----- the members of what is created -----

  /** A member is found again under its prefix exactly when the prefix is a real part. */
  lemma MemberFoundAgain(relative: string, prefix: string)
    requires NormalForm(relative) && PrefixOk(prefix)
    ensures MemberRelative(prefix + "/" + relative, prefix) == if prefix in {".", ".."} then None else Some(relative)
  {
    var parts := PathParts(relative);
    var name := prefix + "/" + relative;
    NormalIsSafe(relative);
    PartsOfJoin(parts);
    PrefixParts(prefix, relative);
    assert PathParts(name) == (if prefix == "." then [] else [prefix]) + parts;
    assert !IsAbsolute(name) && '\\' !in name;
    NoDotsIn(parts);
    hide PathParts, SafeManifestPath, NormalForm;
    if prefix == "." {
      assert [] + parts == parts;
    } else {
      assert ([prefix] + parts)[1..] == parts;
      assert ".." in [prefix] + parts <==> prefix == "..";
    }
  }

  /** What a reader finds under the prefix: nothing when the name was cut at a NUL in it. */
  lemma MemberReadBack(relative: string, prefix: string)
    requires NormalForm(relative) && PrefixOk(prefix)
    ensures MemberRelative(NameRead(prefix + "/" + relative), prefix)
         == if prefix in {".", ".."} || !KeptWhole(prefix + "/" + relative) then None else Some(relative)
  {
    var name := prefix + "/" + relative;
    hide KeptWhole;
    if KeptWhole(name) {
      MemberFoundAgain(relative, prefix);
    } else {
      NulInPrefix(relative, prefix);
      hide NormalForm;
      var cut := BeforeNul(name);
      assert cut <= prefix;
      assert '/' !in cut;
      OnePartOnly(cut);
    }
  }

  lemma {:induction false} NulInPrefix(relative: string, prefix: string)
    requires NormalForm(relative) && !KeptWhole(prefix + "/" + relative)
    ensures '\0' in prefix && BeforeNul(prefix + "/" + relative) <= prefix
  {
    hide PathParts, CleanParts;
    var name := prefix + "/" + relative;
    var cut := BeforeNul(name);
    assert |cut| <= |prefix|;
  }

  lemma OnePartOnly(s: string)
    requires '/' !in s
    ensures |PathParts(s)| <= 1
  {
    if s == "" {
      ComponentsOfNothing('/');
    } else {
      assert NoneContains([s], '/') && Join([s], '/') == s;
      ComponentsOfJoin([s], '/');
      assert [s][1..] == [];
      assert |WithoutDots([s])| <= 1;
    }
  }

  lemma PrefixParts(prefix: string, relative: string)
    requires PrefixOk(prefix) && NormalForm(relative)
    ensures PathParts(prefix + "/" + relative) == (if prefix == "." then [] else [prefix]) + PathParts(relative)
  {
    var parts := PathParts(relative);
    PartsOfJoin(parts);
    assert Components(relative, '/') == parts;
    ComponentsAtSeparator(prefix, relative, '/');
    assert prefix + "/" + relative == prefix + ['/'] + relative;
    assert NoneContains([prefix], '/') && Join([prefix], '/') == prefix;
    ComponentsOfJoin([prefix], '/');
    assert ([prefix] + parts)[1..] == parts;
    NoDotsIn(parts);
    NoDotsToDrop(parts);
  }

  /** What the first k files become: all members match, and extraction restores just them. */
  ghost predicate RestoredSoFar(files: seq<SourceFile>, seen: seq<Observed>, prefix: string, hash: Bytes -> string, k: nat)
    requires k <= |files| <= |seen|
  {
    var members := Members(files[..k], seen, prefix);
    && MembersMatch(members, Records(files, seen, hash), prefix, hash)
    && ExtractedAre(files[..k], seen, Extracted(members, prefix))
  }

  /** The map from the paths of some files to their bytes, and nothing else. */
  ghost predicate ExtractedAre(files: seq<SourceFile>, seen: seq<Observed>, extracted: map<string, Bytes>)
    requires |files| <= |seen|
  {
    && (forall j :: 0 <= j < |files| ==>
          files[j].relative in extracted && extracted[files[j].relative] == Contents(files[j], seen[j]))
    && (forall p :: p in extracted ==> exists j :: 0 <= j < |files| && files[j].relative == p)
  }

  lemma {:induction false} CreatedMemberOk(files: seq<SourceFile>, seen: seq<Observed>, prefix: string,
                                           hash: Bytes -> string, k: nat)
    requires k < |files| <= |seen| && TreeFiles(files) && Steady(files[k], seen[k])
    requires PrefixOk(prefix) && prefix !in {".", ".."} && KeptWhole(prefix + "/" + files[k].relative)
    ensures MemberRelative(MemberFor(files[k], seen[k], prefix).name, prefix) == Some(files[k].relative)
    ensures MemberOk(MemberFor(files[k], seen[k], prefix), prefix, Records(files, seen, hash), hash)
  {
    hide MemberRelative, NormalForm, Clash, Records, Members, KeptWhole, NameRead;
    MemberReadBack(files[k].relative, prefix);
    RecordsAt(files, seen, prefix, hash, k);
    var r := RecordFor(files[k], seen[k], hash);
    assert Records(files, seen, hash)[k] == r;
    assert Fits(MemberFor(files[k], seen[k], prefix), files[k].relative, r, hash);
  }

  lemma {:induction false} MembersStep(files: seq<SourceFile>, seen: seq<Observed>, prefix: string, k: nat)
    requires k < |files| <= |seen|
    ensures Members(files[..k + 1], seen, prefix) == Members(files[..k], seen, prefix) + [MemberFor(files[k], seen[k], prefix)]
  {
    hide MemberFor;
    assert files[..k + 1][..k] == files[..k];
  }

  lemma OneMoreExtracted(files: seq<SourceFile>, seen: seq<Observed>, k: nat, before: map<string, Bytes>)
    requires k < |files| <= |seen| && TreeFiles(files) && ExtractedAre(files[..k], seen, before)
    ensures ExtractedAre(files[..k + 1], seen, before[files[k].relative := Contents(files[k], seen[k])])
    ensures forall p :: p in before ==> !Clash(p, files[k].relative)
  {
    hide NormalForm, Contents;
    ClashesWithItself();
    hide Clash;
    var now := before[files[k].relative := Contents(files[k], seen[k])];
    var next := files[..k + 1];
    forall p | p in before
      ensures !Clash(p, files[k].relative)
    {
      var j :| 0 <= j < k && files[..k][j].relative == p;
      assert files[j].relative == p;
    }
    forall j | 0 <= j <= k
      ensures files[j].relative in now && now[files[j].relative] == Contents(files[j], seen[j])
    {
      if j < k {
        assert files[..k][j] == files[j];
        assert !Clash(files[j].relative, files[k].relative);
      }
    }
    forall p | p in now
      ensures exists j :: 0 <= j < |next| && next[j].relative == p
    {
      if p == files[k].relative {
        assert next[k].relative == p;
      } else {
        var j :| 0 <= j < k && files[..k][j].relative == p;
        assert next[j].relative == p;
      }
    }
  }

  lemma {:induction false} CreatedMatches(files: seq<SourceFile>, seen: seq<Observed>, prefix: string,
                                          hash: Bytes -> string, k: nat)
    requires k <= |files| <= |seen| && TreeFiles(files) && forall j :: 0 <= j < |files| ==> Steady(files[j], seen[j])
    requires PrefixOk(prefix) && prefix !in {".", ".."}
    requires forall j :: 0 <= j < |files| ==> KeptWhole(prefix + "/" + files[j].relative)
    ensures RestoredSoFar(files, seen, prefix, hash, k)
  {
    hide RestoredSoFar, Steady, TreeFiles, KeptWhole;
    if k == 0 {
      NothingRestored(files, seen, prefix, hash);
    } else {
      CreatedMatches(files, seen, prefix, hash, k - 1);
      hide *;
      CreatedStep(files, seen, prefix, hash, k - 1);
    }
  }

  lemma NothingRestored(files: seq<SourceFile>, seen: seq<Observed>, prefix: string, hash: Bytes -> string)
    requires |files| <= |seen|
    ensures RestoredSoFar(files, seen, prefix, hash, 0)
  {
    hide Records;
  }

  lemma CreatedStep(files: seq<SourceFile>, seen: seq<Observed>, prefix: string, hash: Bytes -> string, k: nat)
    requires k < |files| <= |seen| && TreeFiles(files) && Steady(files[k], seen[k])
    requires PrefixOk(prefix) && prefix !in {".", ".."} && KeptWhole(prefix + "/" + files[k].relative)
    requires RestoredSoFar(files, seen, prefix, hash, k)
    ensures RestoredSoFar(files, seen, prefix, hash, k + 1)
  {
    var init, last := Members(files[..k], seen, prefix), MemberFor(files[k], seen[k], prefix);
    var before := Extracted(init, prefix);
    assert MembersMatch(init, Records(files, seen, hash), prefix, hash) && ExtractedAre(files[..k], seen, before);
    assert last.data == Contents(files[k], seen[k]);
    hide *;
    MembersStep(files, seen, prefix, k);
    CreatedMemberOk(files, seen, prefix, hash, k);
    OneMoreExtracted(files, seen, k, before);
    AppendMember(init, last, Records(files, seen, hash), prefix, hash, files[k].relative);
    SoFar(files, seen, prefix, hash, k + 1);
  }

  lemma {:induction false} SoFar(files: seq<SourceFile>, seen: seq<Observed>, prefix: string, hash: Bytes -> string, k: nat)
    requires k <= |files| <= |seen|
    requires MembersMatch(Members(files[..k], seen, prefix), Records(files, seen, hash), prefix, hash)
    requires ExtractedAre(files[..k], seen, Extracted(Members(files[..k], seen, prefix), prefix))
    ensures RestoredSoFar(files, seen, prefix, hash, k)
  {}

  lemma {:induction false} AppendMember(init: seq<Member>, last: Member, records: seq<Record>, prefix: string,
                                        hash: Bytes -> string, relative: string)
    requires MembersMatch(init, records, prefix, hash) && MemberOk(last, prefix, records, hash)
    requires MemberRelative(last.name, prefix) == Some(relative)
    requires forall p :: p in Extracted(init, prefix) ==> !Clash(p, relative)
    ensures MembersMatch(init + [last], records, prefix, hash)
    ensures Extracted(init + [last], prefix) == Extracted(init, prefix)[relative := last.data]
  {
    hide MemberOk, MemberRelative, Clash;
    assert (init + [last])[..|init|] == init;
  }

  lemma {:induction false} CreatedComplete(files: seq<SourceFile>, seen: seq<Observed>, prefix: string, hash: Bytes -> string)
    requires |files| <= |seen| && RestoredSoFar(files, seen, prefix, hash, |files|)
    ensures Complete(Members(files, seen, prefix), Records(files, seen, hash), prefix, hash)
    ensures ExtractedAre(files, seen, Extracted(Members(files, seen, prefix), prefix))
  {
    hide Members, MembersMatch, Extracted;
    assert files[..|files|] == files;
    RecordCount(files, seen, hash);
    var records := Records(files, seen, hash);
    forall r | r in records
      ensures r.path in Extracted(Members(files, seen, prefix), prefix)
    {
      var k :| 0 <= k < |records| && records[k] == r;
      RecordsAt(files, seen, prefix, hash, k);
      hide Records;
    }
  }

  /** Every name reaches the reader whole. */
  ghost predicate NamesKept(files: seq<SourceFile>, prefix: string) {
    forall k :: 0 <= k < |files| ==> KeptWhole(prefix + "/" + files[k].relative)
  }

  /** The round trip. What was created from the files of a tree is accepted exactly when the
      tree is empty, or the prefix is neither "." nor ".." and cuts no name short with a NUL;
      and it extracts to the same paths and bytes. */
  lemma {:induction false} RoundTrip(entries: seq<Entry>, files: seq<SourceFile>, seen: seq<Observed>,
                                     prefix: string, hash: Bytes -> string)
    requires Scanned(entries, files) && TreeListing(entries) && |files| <= |seen|
    requires forall k :: 0 <= k < |files| ==> Steady(files[k], seen[k])
    requires PrefixOk(prefix) && HashIsHex(hash)
    ensures var members, manifest := Members(files, seen, prefix), ManifestJson(Records(files, seen, hash));
      && (Accepts(members, manifest, prefix, hash) <==> files == [] || (prefix !in {".", ".."} && NamesKept(files, prefix)))
      && (Accepts(members, manifest, prefix, hash) ==> ExtractedAre(files, seen, Extracted(members, prefix)))
  {
    var members, records := Members(files, seen, prefix), Records(files, seen, hash);
    ScannedTree(entries, files);
    ManifestReadsBack(files, seen, hash);
    OneManifest(ManifestJson(records), records);
    hide Scanned, TreeListing, ManifestIs, ManifestJson, HashIsHex, Steady, KeptWhole;
    if files == [] {
      NothingCreated(seen, prefix, hash);
    } else if prefix in {".", ".."} || !NamesKept(files, prefix) {
      hide Members, Records;
      var k :| 0 <= k < |files| && (prefix in {".", ".."} || !KeptWhole(prefix + "/" + files[k].relative));
      NeverFoundAgain(files, seen, prefix, hash, k);
    } else {
      CreatedMatches(files, seen, prefix, hash, |files|);
      hide Members, Records, TreeFiles, RestoredSoFar;
      CreatedComplete(files, seen, prefix, hash);
    }
  }

  lemma {:induction false} NothingCreated(seen: seq<Observed>, prefix: string, hash: Bytes -> string)
    ensures Complete(Members([], seen, prefix), Records([], seen, hash), prefix, hash)
    ensures ExtractedAre([], seen, Extracted(Members([], seen, prefix), prefix))
  {}

  lemma {:induction false} NeverFoundAgain(files: seq<SourceFile>, seen: seq<Observed>, prefix: string, hash: Bytes -> string,
                                           k: nat)
    requires k < |files| <= |seen| && TreeFiles(files) && PrefixOk(prefix)
    requires prefix in {".", ".."} || !KeptWhole(prefix + "/" + files[k].relative)
    ensures !Complete(Members(files, seen, prefix), Records(files, seen, hash), prefix, hash)
  {
    hide NormalForm, Clash, MemberRelative, Members, Records, KeptWhole, NameRead;
    var members, records := Members(files, seen, prefix), Records(files, seen, hash);
    RecordsAt(files, seen, prefix, hash, k);
    MemberReadBack(files[k].relative, prefix);
    assert !MemberOk(members[k], prefix, records, hash);
    hide MemberOk, TreeFiles;
    if MembersMatch(members, records, prefix, hash) {
      EachMemberOk(members, records, prefix, hash, k);
    }
  }
}
