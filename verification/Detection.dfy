/** Comparing a scan with the ledger, and why a scan after a clean synchronisation finds nothing. */
module Detection {
  import opened Wrappers
  import opened Ledger
  import opened LedgerAgreement

  datatype Kind = New | Changed | Same

  datatype ChangeSet = ChangeSet(newFiles: seq<FileInfo>, changedFiles: seq<FileInfo>, unchangedFiles: seq<FileInfo>,
                                 deletedPaths: seq<string>)

  function KindOf(rows: Rows, f: FileInfo): Kind {
    if f.path !in rows then New
    else
      var row := rows[f.path];
      if row.contentHash != f.contentHash || row.sizeBytes != f.sizeBytes || row.modifiedTime != f.modifiedTime || row.isDeleted
      then Changed else Same
  }

  /** An unchanged file takes over the identity and revision its row has. */
  function Carried(rows: Rows, f: FileInfo): FileInfo {
    if f.path !in rows then f
    else
      var row := rows[f.path];
      f.(sourceId := if HasIdentity(row.sourceId) then row.sourceId else f.sourceId,
         fileRevision := if HasIdentity(row.fileRevision) then row.fileRevision else f.fileRevision)
  }

  function OfKind(rows: Rows, files: seq<FileInfo>, kind: Kind): seq<FileInfo> {
    if files == [] then []
    else
      var last := files[|files| - 1];
      OfKind(rows, files[..|files| - 1], kind)
      + if KindOf(rows, last) == kind then [if kind == Same then Carried(rows, last) else last] else []
  }

  /** The live files of a share; rows without an extension are directories. */
  function KnownPaths(rows: Rows, shareId: string): set<string> {
    set p | p in rows && rows[p].shareId == shareId && !rows[p].isDeleted && rows[p].ext.Some?
  }

  ghost predicate Detected(rows: Rows, shareId: string, current: seq<FileInfo>, cs: ChangeSet) {
    && cs.newFiles == OfKind(rows, current, New)
    && cs.changedFiles == OfKind(rows, current, Changed)
    && cs.unchangedFiles == OfKind(rows, current, Same)
    && (set p | p in cs.deletedPaths) == KnownPaths(rows, shareId) - PathsOf(current)
    && |cs.deletedPaths| == |set p | p in cs.deletedPaths|
  }

  method DetectChanges(ledger: FileLedger, shareId: string, current: seq<FileInfo>) returns (cs: ChangeSet)
    ensures Detected(ledger.rows, shareId, current, cs)
  {
    hide KindOf, Carried, PathsOf;
    var newFiles, changedFiles, unchangedFiles: seq<FileInfo> := [], [], [];
    for k := 0 to |current|
      invariant newFiles == OfKind(ledger.rows, current[..k], New)
      invariant changedFiles == OfKind(ledger.rows, current[..k], Changed)
      invariant unchangedFiles == OfKind(ledger.rows, current[..k], Same)
    {
      assert current[..k + 1][..k] == current[..k];
      var f := current[k];
      match KindOf(ledger.rows, f) {
        case New => newFiles := newFiles + [f];
        case Changed => changedFiles := changedFiles + [f];
        case Same => unchangedFiles := unchangedFiles + [Carried(ledger.rows, f)];
      }
    }
    assert current[..|current|] == current;
    hide OfKind, KnownPaths;
    var deletedPaths := InAnyOrder(KnownPaths(ledger.rows, shareId) - PathsOf(current));
    cs := ChangeSet(newFiles, changedFiles, unchangedFiles, deletedPaths);
  }

  method InAnyOrder(paths: set<string>) returns (s: seq<string>)
    ensures (set p | p in s) == paths && |s| == |paths|
  {
    s := [];
    var left := paths;
    while left != {}
      invariant left <= paths && (set p | p in s) == paths - left && |s| == |paths - left|
      decreases left
    {
      var p :| p in left;
      assert paths - (left - {p}) == (paths - left) + {p};
      left := left - {p};
      s := s + [p];
    }
    assert paths - left == paths;
  }

  // ----- a second scan -----

  ghost predicate NoRepeats(files: seq<FileInfo>) {
    forall j, k :: 0 <= j < k < |files| ==> files[j].path != files[k].path
  }

  lemma {:induction false} OfKindIn(rows: Rows, files: seq<FileInfo>, kind: Kind, g: FileInfo)
    ensures g in OfKind(rows, files, kind)
      <==> exists f :: f in files && KindOf(rows, f) == kind && g == if kind == Same then Carried(rows, f) else f
  {
    hide KindOf, Carried;
    if files != [] {
      var init, last := files[..|files| - 1], files[|files| - 1];
      assert files == init + [last];
      OfKindIn(rows, init, kind, g);
      assert forall f :: f in files <==> f in init || f == last;
    }
  }

  lemma SamePathSameFile(files: seq<FileInfo>, f: FileInfo, g: FileInfo)
    requires NoRepeats(files) && f in files && g in files && f.path == g.path
    ensures f == g
  {}

  lemma {:induction false} OfKindNoRepeats(rows: Rows, files: seq<FileInfo>, kind: Kind)
    requires NoRepeats(files)
    ensures NoRepeats(OfKind(rows, files, kind))
  {
    if files != [] {
      var init, last := files[..|files| - 1], files[|files| - 1];
      assert files == init + [last];
      OfKindNoRepeats(rows, init, kind);
      forall g | g in OfKind(rows, init, kind)
        ensures g.path != last.path
      {
        OfKindIn(rows, init, kind, g);
        var f :| f in init && g.path == f.path;
        var k :| 0 <= k < |init| && init[k] == f;
        assert files[k] == f;
      }
      hide KindOf, Carried;
    }
  }

  lemma {:induction false} WithoutIdentityNoRepeats(files: seq<FileInfo>)
    requires NoRepeats(files)
    ensures NoRepeats(WithoutIdentity(files))
  {
    if files != [] {
      var init, last := files[..|files| - 1], files[|files| - 1];
      assert files == init + [last];
      WithoutIdentityNoRepeats(init);
      WithoutIdentityIn(init);
      forall g | g in WithoutIdentity(init)
        ensures g.path != last.path
      {
        var k :| 0 <= k < |init| && init[k] == g;
        assert files[k] == g;
      }
    }
  }

  lemma AppendNoRepeats(a: seq<FileInfo>, b: seq<FileInfo>)
    requires NoRepeats(a) && NoRepeats(b)
    requires forall f, g :: f in a && g in b ==> f.path != g.path
    ensures NoRepeats(a + b)
  {
    forall j, k | 0 <= j < k < |a + b|
      ensures (a + b)[j].path != (a + b)[k].path
    {
      if j < |a| <= k {
        assert a[j] in a && b[k - |a|] in b;
      }
    }
  }

  /** The files to be sent, as the scan gives them. */
  ghost function ToSend(cs: ChangeSet): seq<FileInfo> {
    cs.newFiles + cs.changedFiles + WithoutIdentity(cs.unchangedFiles)
  }

  lemma {:induction false} KindsApart(rows: Rows, files: seq<FileInfo>, a: Kind, b: Kind)
    requires NoRepeats(files) && a != b
    ensures forall f, g :: f in OfKind(rows, files, a) && g in OfKind(rows, files, b) ==> f.path != g.path
  {
    forall f, g | f in OfKind(rows, files, a) && g in OfKind(rows, files, b)
      ensures f.path != g.path
    {
      OfKindIn(rows, files, a, f);
      OfKindIn(rows, files, b, g);
      if f.path == g.path {
        var x :| x in files && KindOf(rows, x) == a && x.path == f.path;
        var y :| y in files && KindOf(rows, y) == b && y.path == g.path;
        SamePathSameFile(files, x, y);
      }
    }
  }

  lemma ToSendNoRepeats(rows: Rows, shareId: string, current: seq<FileInfo>, cs: ChangeSet)
    requires Detected(rows, shareId, current, cs) && NoRepeats(current)
    ensures NoRepeats(ToSend(cs))
  {
    OfKindNoRepeats(rows, current, New);
    OfKindNoRepeats(rows, current, Changed);
    OfKindNoRepeats(rows, current, Same);
    KindsApart(rows, current, New, Changed);
    KindsApart(rows, current, New, Same);
    KindsApart(rows, current, Changed, Same);
    hide OfKind, KnownPaths, NoRepeats;
    WithoutIdentityIn(cs.unchangedFiles);
    WithoutIdentityNoRepeats(cs.unchangedFiles);
    AppendNoRepeats(cs.newFiles, cs.changedFiles);
    AppendNoRepeats(cs.newFiles + cs.changedFiles, WithoutIdentity(cs.unchangedFiles));
  }

  lemma CandidatesDistinct(rows: Rows, files: seq<FileInfo>, candidates: seq<FileInfo>, revision: FileInfo -> string)
    requires IdentifiedAll(rows, files, candidates, revision) && NoRepeats(files)
    ensures DistinctPaths(candidates)
    ensures forall f :: f in files ==> exists c :: c in candidates && c.path == f.path
    ensures forall c :: c in candidates ==> exists f :: f in files && c == f.(sourceId := c.sourceId, fileRevision := c.fileRevision)
                                                       && HasIdentity(c.sourceId)
  {
    forall k | 0 <= k < |files|
      ensures Identified(rows, files[k], candidates[k], revision)
    {}
    forall c, d | c in candidates && d in candidates && c.path == d.path
      ensures c == d
    {
      var j :| 0 <= j < |candidates| && candidates[j] == c;
      var k :| 0 <= k < |candidates| && candidates[k] == d;
      assert files[j].path == files[k].path;
    }
    forall f | f in files
      ensures exists c :: c in candidates && c.path == f.path
    {
      var k :| 0 <= k < |files| && files[k] == f;
      assert candidates[k] in candidates && candidates[k].path == f.path;
    }
    forall c | c in candidates
      ensures exists f :: f in files && c == f.(sourceId := c.sourceId, fileRevision := c.fileRevision) && HasIdentity(c.sourceId)
    {
      var k :| 0 <= k < |candidates| && candidates[k] == c;
      assert files[k] in files;
    }
  }

  /** A file that was scanned is the same in the ledger afterwards, with an identity unless it
      brought its own. */
  ghost predicate NowSame(now: Rows, f: FileInfo) {
    KindOf(now, f) == Same && HasIdentity(Carried(now, f).sourceId)
  }

  /** Everything is sent that is new, changed or lacks an identity, and nothing else. */
  lemma SentOrSame(rows: Rows, shareId: string, current: seq<FileInfo>, cs: ChangeSet, f: FileInfo)
    requires Detected(rows, shareId, current, cs) && NoRepeats(current) && f in current
    ensures (exists g :: g in ToSend(cs) && g.path == f.path) || NowSame(rows, f)
    ensures forall g :: g in ToSend(cs) && g.path == f.path ==>
      g == f.(sourceId := g.sourceId, fileRevision := g.fileRevision)
  {
    hide OfKind, KnownPaths, NoRepeats;
    OfKindIn(rows, current, KindOf(rows, f), if KindOf(rows, f) == Same then Carried(rows, f) else f);
    WithoutIdentityIn(cs.unchangedFiles);
    forall g | g in ToSend(cs) && g.path == f.path
      ensures g == f.(sourceId := g.sourceId, fileRevision := g.fileRevision)
    {
      FromCurrent(rows, current, cs, g);
      var x :| x in current && g == x.(sourceId := g.sourceId, fileRevision := g.fileRevision);
      SamePathSameFile(current, x, f);
    }
    hide KindOf;
    if KindOf(rows, f) == Same && HasIdentity(Carried(rows, f).sourceId) {
    } else {
      var g := if KindOf(rows, f) == Same then Carried(rows, f) else f;
      assert g in ToSend(cs) && g.path == f.path;
    }
  }

  lemma {:induction false} FromCurrent(rows: Rows, current: seq<FileInfo>, cs: ChangeSet, g: FileInfo)
    requires cs.newFiles == OfKind(rows, current, New) && cs.changedFiles == OfKind(rows, current, Changed)
    requires cs.unchangedFiles == OfKind(rows, current, Same) && g in ToSend(cs)
    ensures exists x :: x in current && g == x.(sourceId := g.sourceId, fileRevision := g.fileRevision)
  {
    hide OfKind, KindOf;
    WithoutIdentityIn(cs.unchangedFiles);
    OfKindIn(rows, current, New, g);
    OfKindIn(rows, current, Changed, g);
    OfKindIn(rows, current, Same, g);
  }

  lemma ScannedIsSame(before: Rows, shareId: string, current: seq<FileInfo>, cs: ChangeSet, r: SyncRun, now: Rows,
                      revision: FileInfo -> string, f: FileInfo)
    requires Detected(before, shareId, current, cs) && NoRepeats(current) && f in current && !f.isDeleted
    requires IdentifiedAll(before, ToSend(cs), r.candidates, revision)
    requires RowAsReported(before, r.candidates, cs.deletedPaths, shareId, now, f.path)
    ensures NowSame(now, f)
    ensures f.path in now
  {
    hide OfKind, KnownPaths, IdentifiedAll, ToSend, NoRepeats, DistinctPaths, RowAsReported, NowSame;
    SentOrSame(before, shareId, current, cs, f);
    ToSendNoRepeats(before, shareId, current, cs);
    CandidatesDistinct(before, ToSend(cs), r.candidates, revision);
    assert f.path in PathsOf(current) && f.path !in set p | p in cs.deletedPaths;
    hide Detected, Carried;
    if c :| c in r.candidates && c.path == f.path {
      var g :| g in ToSend(cs) && c == g.(sourceId := c.sourceId, fileRevision := c.fileRevision) && HasIdentity(c.sourceId);
      assert c == f.(sourceId := c.sourceId, fileRevision := c.fileRevision);
      SentIsSame(before, r.candidates, cs.deletedPaths, shareId, now, f, c);
    } else {
      assert Unsent(r.candidates, f.path);
      assert forall g :: g in ToSend(cs) ==> g.path != f.path;
      UnsentIsSame(before, r.candidates, cs.deletedPaths, shareId, now, f);
    }
  }

  lemma SentIsSame(before: Rows, candidates: seq<FileInfo>, paths: seq<string>, shareId: string, now: Rows,
                   f: FileInfo, c: FileInfo)
    requires RowAsReported(before, candidates, paths, shareId, now, f.path)
    requires c in candidates && c == f.(sourceId := c.sourceId, fileRevision := c.fileRevision) && HasIdentity(c.sourceId)
    requires !f.isDeleted
    ensures NowSame(now, f) && f.path in now
  {}

  lemma UnsentIsSame(before: Rows, candidates: seq<FileInfo>, paths: seq<string>, shareId: string, now: Rows, f: FileInfo)
    requires RowAsReported(before, candidates, paths, shareId, now, f.path)
    requires Unsent(candidates, f.path) && f.path !in paths && NowSame(before, f)
    ensures NowSame(now, f) && f.path in now
  {}

  /** Candidates are scanned files. */
  lemma CandidatesScanned(before: Rows, shareId: string, current: seq<FileInfo>, cs: ChangeSet, candidates: seq<FileInfo>,
                          revision: FileInfo -> string)
    requires Detected(before, shareId, current, cs) && NoRepeats(current)
    requires IdentifiedAll(before, ToSend(cs), candidates, revision)
    ensures DistinctPaths(candidates)
    ensures forall c :: c in candidates ==> c.path in PathsOf(current)
    ensures Disjoint(candidates, cs.deletedPaths)
  {
    ToSendNoRepeats(before, shareId, current, cs);
    CandidatesDistinct(before, ToSend(cs), candidates, revision);
    hide OfKind, KnownPaths, NoRepeats, DistinctPaths, IdentifiedAll, ToSend;
    forall c | c in candidates
      ensures c.path in PathsOf(current) && c.path !in cs.deletedPaths
    {
      var g :| g in ToSend(cs) && c == g.(sourceId := c.sourceId, fileRevision := c.fileRevision);
      FromCurrent(before, current, cs, g);
      assert c.path in PathsOf(current);
      assert c.path !in set p | p in cs.deletedPaths;
    }
  }

  lemma ReportedAfter(before: Rows, shareId: string, current: seq<FileInfo>, cs: ChangeSet, r: SyncRun, now: Rows,
                      revision: FileInfo -> string, p: string)
    requires Detected(before, shareId, current, cs) && NoRepeats(current)
    requires IdentifiedAll(before, ToSend(cs), r.candidates, revision)
    requires r.deletions == cs.deletedPaths && r.shareId == shareId
    requires SyncOutcome(before, r, now) && (r.end == Completed || r.end == NotNeeded) && NoErrors(r.exchanges)
    ensures RowAsReported(before, r.candidates, cs.deletedPaths, shareId, now, p)
  {
    hide Detected, NoRepeats, IdentifiedAll, ToSend, RecordedAll, RequestsInOrder, AllReplied, DistinctPaths, Disjoint;
    CandidatesScanned(before, shareId, current, cs, r.candidates, revision);
    if r.end == Completed {
      hide SyncOutcome, RowAsReported;
      ErrorFreeRunRecordsAll(before, r, now, p);
    }
  }

  lemma {:induction false} NothingOfKind(rows: Rows, files: seq<FileInfo>, kind: Kind)
    requires forall f :: f in files ==> KindOf(rows, f) != kind
    ensures OfKind(rows, files, kind) == []
  {
    hide KindOf;
    if files != [] {
      assert forall f :: f in files[..|files| - 1] ==> f in files;
      NothingOfKind(rows, files[..|files| - 1], kind);
    }
  }

  lemma {:induction false} AllHaveIdentity(rows: Rows, files: seq<FileInfo>)
    requires forall f :: f in files ==> NowSame(rows, f)
    ensures WithoutIdentity(OfKind(rows, files, Same)) == []
  {
    hide KindOf, Carried;
    if files != [] {
      var init, last := files[..|files| - 1], files[|files| - 1];
      assert last in files && forall f :: f in init ==> f in files;
      AllHaveIdentity(rows, init);
      var kept := OfKind(rows, init, Same);
      assert OfKind(rows, files, Same) == kept + [Carried(rows, last)];
      hide OfKind;
      assert (kept + [Carried(rows, last)])[..|kept|] == kept;
    }
  }

  lemma NothingDeleted(before: Rows, shareId: string, current: seq<FileInfo>, cs: ChangeSet,
                       candidates: seq<FileInfo>, now: Rows,
                       revision: FileInfo -> string)
    requires Detected(before, shareId, current, cs) && NoRepeats(current)
    requires IdentifiedAll(before, ToSend(cs), candidates, revision)
    requires forall p :: RowAsReported(before, candidates, cs.deletedPaths, shareId, now, p)
    ensures KnownPaths(now, shareId) <= PathsOf(current)
  {
    CandidatesScanned(before, shareId, current, cs, candidates, revision);
    hide OfKind, NoRepeats, DistinctPaths, Disjoint, IdentifiedAll, ToSend, PathsOf;
    forall p | p in KnownPaths(now, shareId)
      ensures p in PathsOf(current)
    {
      assert RowAsReported(before, candidates, cs.deletedPaths, shareId, now, p);
      if Unsent(candidates, p) {
        StillLive(before, shareId, candidates, cs.deletedPaths, now, p);
        assert p !in set q | q in cs.deletedPaths;
        assert p in KnownPaths(before, shareId) - PathsOf(current) || p in PathsOf(current);
      }
    }
  }

  lemma StillLive(before: Rows, shareId: string, candidates: seq<FileInfo>, paths: seq<string>, now: Rows, p: string)
    requires RowAsReported(before, candidates, paths, shareId, now, p) && Unsent(candidates, p)
    requires p in KnownPaths(now, shareId)
    ensures p in KnownPaths(before, shareId) && p !in paths
  {}

  /** After a synchronisation without errors, scanning the same files again finds nothing new,
      changed or deleted, and nothing left to backfill. */
  lemma SecondScanIsQuiet(before: Rows, shareId: string, current: seq<FileInfo>, cs: ChangeSet, r: SyncRun, now: Rows,
                          revision: FileInfo -> string, again: ChangeSet)
    requires Detected(before, shareId, current, cs) && NoRepeats(current) && forall f :: f in current ==> !f.isDeleted
    requires IdentifiedAll(before, ToSend(cs), r.candidates, revision)
    requires r.deletions == cs.deletedPaths && r.shareId == shareId
    requires SyncOutcome(before, r, now) && (r.end == Completed || r.end == NotNeeded) && NoErrors(r.exchanges)
    requires Detected(now, shareId, current, again)
    ensures again.newFiles == [] && again.changedFiles == [] && again.deletedPaths == []
    ensures WithoutIdentity(again.unchangedFiles) == []
  {
    forall p
      ensures RowAsReported(before, r.candidates, cs.deletedPaths, shareId, now, p)
    {
      ReportedAfter(before, shareId, current, cs, r, now, revision, p);
    }
    forall f | f in current
      ensures NowSame(now, f) && f.path in now
    {
      hide *;
      ScannedIsSame(before, shareId, current, cs, r, now, revision, f);
    }
    NothingOfKind(now, current, New);
    NothingOfKind(now, current, Changed);
    AllHaveIdentity(now, current);
    NothingDeleted(before, shareId, current, cs, r.candidates, now, revision);
    hide OfKind, KnownPaths, PathsOf, WithoutIdentity, SyncOutcome, IdentifiedAll, RowAsReported, NowSame;
    assert (set p | p in again.deletedPaths) == {};
  }
}
