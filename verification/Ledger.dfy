/** The agent's ledger of files, and the loop that sends a scan's changes to the service and
    records in the ledger what the service acknowledged. */
module Ledger {
  import opened Wrappers

  const SYNC_BATCH_SIZE: nat := 100

  /** One row of the ledger, and the form in which the scanner hands over a file. The details
      stand for the columns that are only copied. */
  datatype FileInfo = FileInfo(path: string, shareId: string, details: seq<Option<string>>, ext: Option<string>,
                               sizeBytes: Option<int>, modifiedTime: Option<string>, contentHash: Option<string>,
                               isDeleted: bool, sourceId: Option<string>, fileRevision: Option<string>)

  type Rows = map<string, FileInfo>

  predicate HasIdentity(id: Option<string>) {
    id.Some? && id.value != ""
  }

  // ----- the ledger -----

  /** The unique index on source_id, which leaves absent ids out. */
  predicate Conflicts(rows: Rows, f: FileInfo) {
    f.sourceId.Some? && exists p :: p in rows && p != f.path && rows[p].sourceId == f.sourceId
  }

  ghost predicate DistinctIdentities(rows: Rows) {
    forall p, q :: p in rows && q in rows && p != q && rows[p].sourceId.Some? ==> rows[p].sourceId != rows[q].sourceId
  }

  ghost predicate Keyed(rows: Rows) {
    forall p :: p in rows ==> rows[p].path == p
  }

  ghost predicate ValidRows(rows: Rows) {
    Keyed(rows) && DistinctIdentities(rows)
  }

  function UpsertAll(rows: Rows, files: seq<FileInfo>): Rows {
    if files == [] then rows
    else
      var last := files[|files| - 1];
      UpsertAll(rows, files[..|files| - 1])[last.path := last]
  }

  function MarkOne(rows: Rows, path: string): Rows {
    if path in rows then rows[path := rows[path].(isDeleted := true)] else rows
  }

  function MarkAll(rows: Rows, paths: seq<string>): Rows {
    if paths == [] then rows else MarkOne(MarkAll(rows, paths[..|paths| - 1]), paths[|paths| - 1])
  }

  function Live(rows: Rows, sourceId: string): set<string> {
    set p | p in rows && rows[p].sourceId == Some(sourceId) && !rows[p].isDeleted
  }

  lemma UpsertKeepsValid(rows: Rows, f: FileInfo)
    requires ValidRows(rows) && !Conflicts(rows, f)
    ensures ValidRows(rows[f.path := f])
  {}

  lemma MarkKeepsValid(rows: Rows, path: string)
    requires ValidRows(rows)
    ensures ValidRows(MarkOne(rows, path))
  {}

  lemma {:induction false} UpsertAt(rows: Rows, files: seq<FileInfo>, p: string)
    ensures p in UpsertAll(rows, files) <==> p in rows || exists f :: f in files && f.path == p
    ensures (forall f :: f in files ==> f.path != p) && p in rows ==> UpsertAll(rows, files)[p] == rows[p]
    ensures (exists f :: f in files && f.path == p) ==> UpsertAll(rows, files)[p] in files && UpsertAll(rows, files)[p].path == p
  {
    if files != [] {
      var init, last := files[..|files| - 1], files[|files| - 1];
      assert files == init + [last];
      UpsertAt(rows, init, p);
      assert forall f :: f in files <==> f in init || f == last;
    }
  }

  lemma {:induction false} MarkAt(rows: Rows, paths: seq<string>, p: string)
    ensures p in MarkAll(rows, paths) <==> p in rows
    ensures p in rows ==> MarkAll(rows, paths)[p] == if p in paths then rows[p].(isDeleted := true) else rows[p]
  {
    if paths != [] {
      var init, last := paths[..|paths| - 1], paths[|paths| - 1];
      assert paths == init + [last];
      MarkAt(rows, init, p);
    }
  }

  class FileLedger {
    var rows: Rows

    /** Row by row within one transaction. A row that fails leaves those before it visible. */
    method UpsertFiles(files: seq<FileInfo>) returns (ok: bool, done: nat)
      requires ValidRows(rows)
      modifies this
      ensures ValidRows(rows)
      ensures done <= |files| && rows == UpsertAll(old(rows), files[..done])
      ensures ok ==> done == |files|
    {
      done := 0;
      ok := true;
      while done < |files|
        invariant done <= |files| && ValidRows(rows)
        invariant rows == UpsertAll(old(rows), files[..done])
      {
        var fault: bool := *;
        if fault || Conflicts(rows, files[done]) {
          ok := false;
          return;
        }
        UpsertKeepsValid(rows, files[done]);
        assert files[..done + 1][..done] == files[..done];
        rows := rows[files[done].path := files[done]];
        done := done + 1;
      }
      ok := *;
    }

    method MarkDeletedPaths(paths: seq<string>) returns (ok: bool, done: nat)
      requires ValidRows(rows)
      modifies this
      ensures ValidRows(rows)
      ensures done <= |paths| && rows == MarkAll(old(rows), paths[..done])
      ensures ok ==> done == |paths|
    {
      done := 0;
      ok := true;
      while done < |paths|
        invariant done <= |paths| && ValidRows(rows)
        invariant rows == MarkAll(old(rows), paths[..done])
      {
        var fault: bool := *;
        if fault {
          ok := false;
          return;
        }
        MarkKeepsValid(rows, paths[done]);
        assert paths[..done + 1][..done] == paths[..done];
        rows := MarkOne(rows, paths[done]);
        done := done + 1;
      }
      ok := *;
    }

    /** Attaches the identity kept for the path, or a new one, and the revision. */
    method AssignSourceIdentity(file: FileInfo, revision: FileInfo -> string) returns (r: Option<FileInfo>)
      ensures r.Some? ==> Identified(rows, file, r.value, revision)
    {
      var fault: bool := *;
      if fault {
        return None;
      }
      var uuid: string := *;
      if uuid == "" {
        uuid := "0";
      }
      var id := if file.path in rows && HasIdentity(rows[file.path].sourceId) then rows[file.path].sourceId.value else uuid;
      r := Some(file.(sourceId := Some(id), fileRevision := Some(revision(file))));
    }

    /** The live row of an identity, if any; the unique index leaves no choice. */
    method ResolveSource(sourceId: string) returns (r: Option<FileInfo>)
      requires ValidRows(rows)
      ensures r.None? <==> Live(rows, sourceId) == {}
      ensures r.Some? ==> Live(rows, sourceId) == {r.value.path} && rows[r.value.path] == r.value
    {
      var live := Live(rows, sourceId);
      if live == {} {
        return None;
      }
      var p :| p in live;
      r := Some(rows[p]);
    }

    constructor ()
      ensures rows == map[]
    {
      rows := map[];
    }
  }

  ghost predicate Identified(rows: Rows, file: FileInfo, r: FileInfo, revision: FileInfo -> string) {
    && HasIdentity(r.sourceId)
    && r == file.(sourceId := r.sourceId, fileRevision := Some(revision(file)))
    && (file.path in rows && HasIdentity(rows[file.path].sourceId) ==> r.sourceId == rows[file.path].sourceId)
  }

  // ----- the service -----

  /** An entry of a reply's error list; entries without a path concern the whole request. */
  datatype SyncError = SyncError(path: Option<string>)

  datatype Response = Raised | Malformed | Reply(errors: seq<SyncError>)

  datatype Exchange = Exchange(files: seq<FileInfo>, deletions: seq<string>, response: Response)

  class SaaSClient {
    var exchanges: seq<Exchange>

    method Sync(files: seq<FileInfo>, deletions: seq<string>) returns (response: Response)
      modifies this
      ensures exchanges == old(exchanges) + [Exchange(files, deletions, response)]
    {
      response := *;
      exchanges := exchanges + [Exchange(files, deletions, response)];
    }

    constructor ()
      ensures exchanges == []
    {
      exchanges := [];
    }
  }

  predicate Unscoped(errors: seq<SyncError>) {
    exists e :: e in errors && e.path.None?
  }

  /** Whether the service took the entry for a path. */
  predicate Acknowledged(response: Response, path: string) {
    response.Reply? && !Unscoped(response.errors) && SyncError(Some(path)) !in response.errors
  }

  function AcceptedFiles(response: Response, files: seq<FileInfo>, shareId: string): seq<FileInfo> {
    if files == [] then []
    else
      var last := files[|files| - 1];
      AcceptedFiles(response, files[..|files| - 1], shareId)
      + if Acknowledged(response, last.path) then [last.(shareId := shareId)] else []
  }

  function AcceptedPaths(response: Response, paths: seq<string>): seq<string> {
    if paths == [] then []
    else
      var last := paths[|paths| - 1];
      AcceptedPaths(response, paths[..|paths| - 1]) + if Acknowledged(response, last) then [last] else []
  }

  function Recorded(rows: Rows, e: Exchange, shareId: string): Rows {
    MarkAll(UpsertAll(rows, AcceptedFiles(e.response, e.files, shareId)), AcceptedPaths(e.response, e.deletions))
  }

  function RecordedAll(rows: Rows, exchanges: seq<Exchange>, shareId: string): Rows {
    if exchanges == [] then rows
    else Recorded(RecordedAll(rows, exchanges[..|exchanges| - 1], shareId), exchanges[|exchanges| - 1], shareId)
  }

  // ----- one synchronisation -----

  function BatchCount(n: nat): nat {
    if n == 0 then 1 else (n + SYNC_BATCH_SIZE - 1) / SYNC_BATCH_SIZE
  }

  function Batch(candidates: seq<FileInfo>, k: nat): seq<FileInfo> {
    var lo, hi := k * SYNC_BATCH_SIZE, (k + 1) * SYNC_BATCH_SIZE;
    if |candidates| <= lo then [] else if |candidates| <= hi then candidates[lo..] else candidates[lo..hi]
  }

  /** How the loop over the batches ended. A ledger write that fails has recorded some of the
      accepted files, and some of the accepted deletions once all files are in. */
  datatype End = NotNeeded | Completed | RequestFailed | LedgerFailed(upserted: nat, marked: nat)

  datatype SyncRun = SyncRun(candidates: seq<FileInfo>, deletions: seq<string>, shareId: string, exchanges: seq<Exchange>,
                             end: End)

  ghost predicate RequestsInOrder(r: SyncRun) {
    forall k :: 0 <= k < |r.exchanges| ==>
      && r.exchanges[k].files == Batch(r.candidates, k)
      && r.exchanges[k].deletions == if k == 0 then r.deletions else []
  }

  ghost predicate AllReplied(exchanges: seq<Exchange>) {
    forall e :: e in exchanges ==> e.response.Reply?
  }

  /** The exchanges that the ledger followed to the end. */
  ghost function Finished(r: SyncRun): seq<Exchange> {
    if (r.end.RequestFailed? || r.end.LedgerFailed?) && r.exchanges != [] then r.exchanges[..|r.exchanges| - 1] else r.exchanges
  }

  /** How one exchange left the ledger. */
  ghost predicate BatchOutcome(before: Rows, e: Exchange, shareId: string, end: End, now: Rows) {
    var files, paths := AcceptedFiles(e.response, e.files, shareId), AcceptedPaths(e.response, e.deletions);
    match end
    case NotNeeded => false
    case Completed => e.response.Reply? && now == Recorded(before, e, shareId)
    case RequestFailed => !e.response.Reply? && now == before
    case LedgerFailed(upserted, marked) =>
      && e.response.Reply?
      && upserted <= |files| && marked <= |paths| && (marked > 0 ==> upserted == |files|)
      && now == MarkAll(UpsertAll(before, files[..upserted]), paths[..marked])
  }

  ghost predicate SyncOutcome(before: Rows, r: SyncRun, now: Rows) {
    var n := |r.exchanges|;
    && RequestsInOrder(r)
    && AllReplied(Finished(r))
    && n <= BatchCount(|r.candidates|)
    && match r.end
       case NotNeeded => r.candidates == [] && r.deletions == [] && n == 0 && now == before
       case Completed => n == BatchCount(|r.candidates|) && now == RecordedAll(before, r.exchanges, r.shareId)
       case _ => n > 0 && BatchOutcome(RecordedAll(before, r.exchanges[..n - 1], r.shareId), r.exchanges[n - 1], r.shareId, r.end, now)
  }

  function Backfilled(files: seq<FileInfo>, backfill: set<string>): nat {
    if files == [] then 0
    else Backfilled(files[..|files| - 1], backfill) + if files[|files| - 1].path in backfill then 1 else 0
  }

  function AcceptedBackfills(exchanges: seq<Exchange>, shareId: string, backfill: set<string>): nat {
    if exchanges == [] then 0
    else
      var last := exchanges[|exchanges| - 1];
      AcceptedBackfills(exchanges[..|exchanges| - 1], shareId, backfill)
      + Backfilled(AcceptedFiles(last.response, last.files, shareId), backfill)
  }

  function SyncedCount(exchanges: seq<Exchange>, shareId: string): nat {
    if exchanges == [] then 0
    else
      var last := exchanges[|exchanges| - 1];
      SyncedCount(exchanges[..|exchanges| - 1], shareId) + |AcceptedFiles(last.response, last.files, shareId)|
  }

  ghost predicate AnyErrors(exchanges: seq<Exchange>) {
    exists e :: e in exchanges && e.response.Reply? && e.response.errors != []
  }

  datatype Status = Failed | Partial | Succeeded

  datatype Report = Report(status: Status, fileCount: nat, synced: nat)

  /** The number in the scan report: the unchanged files, and the accepted ones that are not
      backfills. The backfills of a batch whose ledger write fails are counted all the same. */
  ghost function ReportedCount(r: SyncRun, same: nat, backfill: set<string>): nat {
    var synced := SyncedCount(Finished(r), r.shareId);
    var backfills := AcceptedBackfills(if r.end.RequestFailed? then Finished(r) else r.exchanges, r.shareId, backfill);
    same + (if synced >= backfills then synced - backfills else 0)
  }

  ghost predicate SyncTrouble(r: SyncRun) {
    r.end.RequestFailed? || r.end.LedgerFailed? || AnyErrors(r.exchanges)
  }

  function StatusOf(trouble: bool, fileCount: nat): Status {
    if trouble && fileCount == 0 then Failed else if trouble then Partial else Succeeded
  }

  ghost predicate IdentifiedAll(rows: Rows, files: seq<FileInfo>, r: seq<FileInfo>, revision: FileInfo -> string) {
    |files| == |r| && forall k :: 0 <= k < |files| ==> Identified(rows, files[k], r[k], revision)
  }

  predicate NeedsBackfill(f: FileInfo) {
    !HasIdentity(f.sourceId)
  }

  function WithoutIdentity(files: seq<FileInfo>): seq<FileInfo> {
    if files == [] then []
    else
      WithoutIdentity(files[..|files| - 1])
      + if NeedsBackfill(files[|files| - 1]) then [files[|files| - 1]] else []
  }

  function PathsOf(files: seq<FileInfo>): set<string> {
    set f | f in files :: f.path
  }

  method Backfills(unchangedFiles: seq<FileInfo>) returns (files: seq<FileInfo>)
    ensures files == WithoutIdentity(unchangedFiles)
  {
    files := [];
    for k := 0 to |unchangedFiles|
      invariant files == WithoutIdentity(unchangedFiles[..k])
    {
      assert unchangedFiles[..k + 1][..k] == unchangedFiles[..k];
      if NeedsBackfill(unchangedFiles[k]) {
        files := files + [unchangedFiles[k]];
      }
    }
    assert unchangedFiles[..|unchangedFiles|] == unchangedFiles;
  }

  /** Sorts one reply: the entries it took, and how many of them are backfills. */
  method AcceptBatch(response: Response, batch: seq<FileInfo>, deletions: seq<string>, shareId: string, backfill: set<string>)
    returns (files: seq<FileInfo>, paths: seq<string>, backfills: nat)
    requires response.Reply?
    ensures files == AcceptedFiles(response, batch, shareId)
    ensures paths == AcceptedPaths(response, deletions)
    ensures backfills == Backfilled(files, backfill)
  {
    var errorPaths := set e | e in response.errors && e.path.Some? :: e.path.value;
    var unscoped := Unscoped(response.errors);
    forall path
      ensures path in errorPaths <==> SyncError(Some(path)) in response.errors
    {
      assert SyncError(Some(path)).path == Some(path);
    }
    files, paths, backfills := [], [], 0;
    for k := 0 to |batch|
      invariant files == AcceptedFiles(response, batch[..k], shareId)
      invariant backfills == Backfilled(files, backfill)
    {
      assert batch[..k + 1][..k] == batch[..k];
      var f := batch[k];
      if !unscoped && f.path !in errorPaths {
        var accepted := f.(shareId := shareId);
        assert (files + [accepted])[..|files|] == files;
        files := files + [accepted];
        if f.path in backfill {
          backfills := backfills + 1;
        }
      }
    }
    for k := 0 to |deletions|
      invariant paths == AcceptedPaths(response, deletions[..k])
    {
      assert deletions[..k + 1][..k] == deletions[..k];
      if !unscoped && deletions[k] !in errorPaths {
        paths := paths + [deletions[k]];
      }
    }
    assert batch[..|batch|] == batch && deletions[..|deletions|] == deletions;
  }

  method AssignIdentities(ledger: FileLedger, files: seq<FileInfo>,
                          revision: FileInfo -> string) returns (r: Option<seq<FileInfo>>)
    ensures r.Some? ==> IdentifiedAll(ledger.rows, files, r.value, revision)
  {
    var identified: seq<FileInfo> := [];
    for k := 0 to |files|
      invariant |identified| == k
      invariant forall j :: 0 <= j < k ==> Identified(ledger.rows, files[j], identified[j], revision)
    {
      var one := ledger.AssignSourceIdentity(files[k], revision);
      if one.None? {
        return None;
      }
      identified := identified + [one.value];
    }
    r := Some(identified);
  }

  /** What the loop knows after a number of batches. */
  ghost predicate Underway(before: Rows, r: SyncRun, k: nat, now: Rows) {
    && r.end == Completed
    && |r.exchanges| == k <= BatchCount(|r.candidates|)
    && RequestsInOrder(r)
    && AllReplied(r.exchanges)
    && now == RecordedAll(before, r.exchanges, r.shareId)
  }

  lemma OneMoreExchange(before: Rows, r: SyncRun, k: nat, was: Rows, e: Exchange, end: End, now: Rows)
    requires Underway(before, r, k, was) && k < BatchCount(|r.candidates|)
    requires e.files == Batch(r.candidates, k) && e.deletions == if k == 0 then r.deletions else []
    requires BatchOutcome(was, e, r.shareId, end, now)
    ensures var next := r.(exchanges := r.exchanges + [e], end := end);
      if end == Completed then Underway(before, next, k + 1, now)
      else SyncOutcome(before, next, now) && Finished(next) == r.exchanges
  {
    hide Recorded, RecordedAll, Batch, BatchCount, AcceptedFiles, AcceptedPaths, UpsertAll, MarkAll;
    var next := r.(exchanges := r.exchanges + [e], end := end);
    assert next.exchanges[..k] == r.exchanges;
    assert RequestsInOrder(next);
    assert AllReplied(r.exchanges) && (end == Completed ==> AllReplied(next.exchanges));
    hide RequestsInOrder, AllReplied;
    if end == Completed {
      LastRecorded(before, r.exchanges, e, r.shareId);
    }
  }

  lemma {:induction false} LastRecorded(before: Rows, exchanges: seq<Exchange>, e: Exchange, shareId: string)
    ensures RecordedAll(before, exchanges + [e], shareId) == Recorded(RecordedAll(before, exchanges, shareId), e, shareId)
  {
    assert (exchanges + [e])[..|exchanges|] == exchanges;
  }

  /** The counters after one more exchange. */
  lemma {:induction false} OneMoreCounted(exchanges: seq<Exchange>, e: Exchange, shareId: string, backfill: set<string>)
    ensures var files := AcceptedFiles(e.response, e.files, shareId);
      && SyncedCount(exchanges + [e], shareId) == SyncedCount(exchanges, shareId) + |files|
      && AcceptedBackfills(exchanges + [e], shareId, backfill)
         == AcceptedBackfills(exchanges, shareId, backfill) + Backfilled(files, backfill)
    ensures AnyErrors(exchanges + [e]) <==> AnyErrors(exchanges) || (e.response.Reply? && e.response.errors != [])
  {
    hide AcceptedFiles, Backfilled;
    assert (exchanges + [e])[..|exchanges|] == exchanges;
    assert forall x :: x in exchanges + [e] <==> x in exchanges || x == e;
  }

  lemma LoopCompleted(before: Rows, r: SyncRun, now: Rows)
    requires Underway(before, r, BatchCount(|r.candidates|), now)
    ensures SyncOutcome(before, r, now)
  {
    hide RecordedAll, Batch, BatchCount;
  }

  lemma {:induction false} NothingMarked(rows: Rows, paths: seq<string>)
    ensures MarkAll(rows, paths[..0]) == rows
  {}

  /** Sends one batch and records what was acknowledged. */
  method SyncBatch(ledger: FileLedger, client: SaaSClient, batch: seq<FileInfo>, deletions: seq<string>, shareId: string,
                   backfill: set<string>)
    returns (end: End, accepted: nat, backfills: nat, errors: bool, ghost e: Exchange)
    requires ValidRows(ledger.rows)
    modifies ledger, client
    ensures ValidRows(ledger.rows)
    ensures e.files == batch && e.deletions == deletions && client.exchanges == old(client.exchanges) + [e]
    ensures BatchOutcome(old(ledger.rows), e, shareId, end, ledger.rows)
    ensures accepted == |AcceptedFiles(e.response, batch, shareId)|
    ensures backfills == Backfilled(AcceptedFiles(e.response, batch, shareId), backfill)
    ensures errors <==> e.response.Reply? && e.response.errors != []
  {
    hide AcceptedFiles, AcceptedPaths, Backfilled, ValidRows, UpsertAll, MarkAll;
    accepted, backfills, errors := 0, 0, false;
    var response := client.Sync(batch, deletions);
    e := Exchange(batch, deletions, response);
    if !response.Reply? {
      end := RequestFailed;
      NothingAccepted(response, batch, shareId, backfill);
      return;
    }
    errors := response.errors != [];
    var files, paths, more := AcceptBatch(response, batch, deletions, shareId, backfill);
    accepted, backfills := |files|, more;
    var ok, done := ledger.UpsertFiles(files);
    if !ok {
      NothingMarked(ledger.rows, paths);
      end := LedgerFailed(done, 0);
      return;
    }
    assert files[..|files|] == files;
    var okDeletions, doneDeletions := ledger.MarkDeletedPaths(paths);
    assert paths[..|paths|] == paths;
    end := if okDeletions then Completed else LedgerFailed(|files|, doneDeletions);
  }

  lemma {:induction false} NothingAccepted(response: Response, files: seq<FileInfo>, shareId: string, backfill: set<string>)
    requires !response.Reply?
    ensures AcceptedFiles(response, files, shareId) == []
    ensures Backfilled(AcceptedFiles(response, files, shareId), backfill) == 0
  {
    if files != [] {
      NothingAccepted(response, files[..|files| - 1], shareId, backfill);
    }
  }

  /** The outcome of one scan of a share, from the point where the scanner has reported. The
      report is missing when an identity could not be identified, before anything was sent. */
  method ScanShare(ledger: FileLedger, client: SaaSClient, newFiles: seq<FileInfo>, changedFiles: seq<FileInfo>,
                   unchangedFiles: seq<FileInfo>, deletedFiles: seq<string>, shareId: string, otherErrors: bool,
                   revision: FileInfo -> string)
    returns (report: Option<Report>, ghost r: SyncRun)
    requires ValidRows(ledger.rows)
    modifies ledger, client
    ensures ValidRows(ledger.rows)
    ensures client.exchanges == old(client.exchanges) + r.exchanges
    ensures report.None? ==> ledger.rows == old(ledger.rows) && r.exchanges == []
    ensures report.Some? ==>
      && r.deletions == deletedFiles && r.shareId == shareId
      && IdentifiedAll(old(ledger.rows), newFiles + changedFiles + WithoutIdentity(unchangedFiles), r.candidates, revision)
      && SyncOutcome(old(ledger.rows), r, ledger.rows)
    ensures report.Some? ==>
      && report.value.synced == SyncedCount(Finished(r), shareId)
      && report.value.fileCount == ReportedCount(r, |unchangedFiles|, PathsOf(WithoutIdentity(unchangedFiles)))
      && report.value.status == StatusOf(SyncTrouble(r) || otherErrors, report.value.fileCount)
  {
    hide Recorded, RecordedAll, Batch, BatchCount, AcceptedFiles, AcceptedPaths, SyncedCount, AcceptedBackfills, Backfilled;
    hide RequestsInOrder, AllReplied, IdentifiedAll, AnyErrors, UpsertAll, MarkAll, Underway, SyncOutcome, BatchOutcome;
    hide ValidRows, Identified, WithoutIdentity, PathsOf;
    var identityBackfill := Backfills(unchangedFiles);
    var backfill := PathsOf(identityBackfill);
    var found := newFiles + changedFiles + identityBackfill;
    var synced, backfills, trouble := 0, 0, otherErrors;
    ghost var before := ledger.rows;
    r := SyncRun([], deletedFiles, shareId, [], NotNeeded);
    if found != [] || deletedFiles != [] {
      var identified := AssignIdentities(ledger, found, revision);
      if identified.None? {
        return None, r;
      }
      var candidates := identified.value;
      r := SyncRun(candidates, deletedFiles, shareId, [], Completed);
      NothingSentYet(before, r);
      var k, going := 0, true;
      while going && k < BatchCount(|candidates|)
        invariant ValidRows(ledger.rows)
        invariant r.candidates == candidates && r.deletions == deletedFiles && r.shareId == shareId
        invariant client.exchanges == old(client.exchanges) + r.exchanges
        invariant going <==> r.end == Completed
        invariant if going then Underway(before, r, k, ledger.rows) else SyncOutcome(before, r, ledger.rows)
        invariant synced == SyncedCount(Finished(r), shareId)
        invariant backfills == AcceptedBackfills(if r.end.RequestFailed? then Finished(r) else r.exchanges, shareId, backfill)
        invariant r.end != NotNeeded
        invariant trouble <==> otherErrors || SyncTrouble(r)
        invariant k <= BatchCount(|candidates|)
        decreases BatchCount(|candidates|) - k, going
      {
        var batch := Batch(candidates, k);
        var deletions := if k == 0 then deletedFiles else [];
        ghost var was := ledger.rows;
        var end, accepted, more, errors, e := SyncBatch(ledger, client, batch, deletions, shareId, backfill);
        OneMoreExchange(before, r, k, was, e, end, ledger.rows);
        OneMoreCounted(r.exchanges, e, shareId, backfill);
        OutcomeIsEnd(was, e, shareId, end, ledger.rows);
        r := r.(exchanges := r.exchanges + [e], end := end);
        if !end.RequestFailed? {
          backfills := backfills + more;
        }
        if end == Completed {
          synced := synced + accepted;
          trouble := trouble || errors;
          k := k + 1;
        } else {
          trouble := true;
          going := false;
        }
      }
      if going {
        LoopCompleted(before, r, ledger.rows);
      }
    } else {
      NothingToSend(before, r, revision);
    }
    var changed := if synced >= backfills then synced - backfills else 0;
    var fileCount := |unchangedFiles| + changed;
    report := Some(Report(StatusOf(trouble, fileCount), fileCount, synced));
  }

  lemma OutcomeIsEnd(before: Rows, e: Exchange, shareId: string, end: End, now: Rows)
    requires BatchOutcome(before, e, shareId, end, now)
    ensures end != NotNeeded
  {}

  lemma NothingToSend(before: Rows, r: SyncRun, revision: FileInfo -> string)
    requires r == SyncRun([], [], r.shareId, [], NotNeeded)
    ensures IdentifiedAll(before, [], r.candidates, revision)
    ensures SyncOutcome(before, r, before)
    ensures SyncedCount([], r.shareId) == 0 && !AnyErrors([])
    ensures forall backfill :: AcceptedBackfills([], r.shareId, backfill) == 0
  {}

  lemma NothingSentYet(before: Rows, r: SyncRun)
    requires r.end == Completed && r.exchanges == []
    ensures Underway(before, r, 0, before)
    ensures SyncedCount([], r.shareId) == 0 && !AnyErrors([])
    ensures forall backfill :: AcceptedBackfills([], r.shareId, backfill) == 0
  {}
}
