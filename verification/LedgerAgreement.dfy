/** What a synchronisation leaves in the ledger, against what the service acknowledged. */
module LedgerAgreement {
  import opened Wrappers
  import opened Ledger

  function FilesSent(exchanges: seq<Exchange>): seq<FileInfo> {
    if exchanges == [] then [] else FilesSent(exchanges[..|exchanges| - 1]) + exchanges[|exchanges| - 1].files
  }

  function DeletionsSent(exchanges: seq<Exchange>): seq<string> {
    if exchanges == [] then [] else DeletionsSent(exchanges[..|exchanges| - 1]) + exchanges[|exchanges| - 1].deletions
  }

  // ----- the requests -----

  lemma {:induction false} SentSoFar(r: SyncRun, k: nat)
    requires RequestsInOrder(r) && k <= |r.exchanges|
    ensures k * SYNC_BATCH_SIZE <= |r.candidates| ==> FilesSent(r.exchanges[..k]) == r.candidates[..k * SYNC_BATCH_SIZE]
    ensures k * SYNC_BATCH_SIZE > |r.candidates| ==> FilesSent(r.exchanges[..k]) == r.candidates
    ensures DeletionsSent(r.exchanges[..k]) == if k == 0 then [] else r.deletions
  {
    hide Batch;
    if k > 0 {
      SentSoFar(r, k - 1);
      assert r.exchanges[..k][..k - 1] == r.exchanges[..k - 1];
      NextBatch(r.candidates, k - 1);
      NoMore(r.deletions);
    }
  }

  lemma NextBatch(candidates: seq<FileInfo>, k: nat)
    ensures var lo, hi := k * SYNC_BATCH_SIZE, (k + 1) * SYNC_BATCH_SIZE;
      && (hi <= |candidates| ==> candidates[..lo] + Batch(candidates, k) == candidates[..hi])
      && (lo <= |candidates| < hi ==> candidates[..lo] + Batch(candidates, k) == candidates)
      && (|candidates| < lo ==> candidates + Batch(candidates, k) == candidates)
  {}

  lemma NoMore(paths: seq<string>)
    ensures paths + [] == paths && [] + paths == paths
  {}

  /** The requests of a completed run cut the candidates into batches of at most 100, in order
      and without a gap, and send the deletions once. */
  lemma RequestsPartition(before: Rows, r: SyncRun, now: Rows)
    requires SyncOutcome(before, r, now) && r.end == Completed
    ensures FilesSent(r.exchanges) == r.candidates
    ensures DeletionsSent(r.exchanges) == r.deletions
    ensures forall e :: e in r.exchanges ==> |e.files| <= SYNC_BATCH_SIZE
    ensures r.candidates != [] ==> forall e :: e in r.exchanges ==> e.files != []
  {
    hide RecordedAll, AllReplied, FilesSent, DeletionsSent;
    var n := |r.exchanges|;
    BatchesCover(|r.candidates|);
    SentSoFar(r, n);
    assert r.exchanges[..n] == r.exchanges;
    assert r.candidates[..|r.candidates|] == r.candidates;
    forall e | e in r.exchanges
      ensures |e.files| <= SYNC_BATCH_SIZE && (r.candidates != [] ==> e.files != [])
    {
      var k :| 0 <= k < n && r.exchanges[k] == e;
      BatchSize(r.candidates, k);
    }
  }

  lemma BatchesCover(n: nat)
    ensures BatchCount(n) * SYNC_BATCH_SIZE >= n && BatchCount(n) > 0
    ensures n > 0 ==> (BatchCount(n) - 1) * SYNC_BATCH_SIZE < n
  {}

  lemma BatchSize(candidates: seq<FileInfo>, k: nat)
    requires k < BatchCount(|candidates|)
    ensures |Batch(candidates, k)| <= SYNC_BATCH_SIZE
    ensures candidates != [] ==> Batch(candidates, k) != []
  {
    BatchesCover(|candidates|);
  }

  // ----- only what was acknowledged -----

  ghost predicate SentAndTaken(exchanges: seq<Exchange>, p: string) {
    exists e :: e in exchanges && TakenIn(e, p)
  }

  predicate TakenIn(e: Exchange, p: string) {
    Acknowledged(e.response, p) && (p in e.deletions || exists f :: f in e.files && f.path == p)
  }

  lemma {:induction false} AcceptedIn(response: Response, files: seq<FileInfo>, shareId: string, g: FileInfo)
    ensures g in AcceptedFiles(response, files, shareId)
      <==> exists f :: f in files && Acknowledged(response, f.path) && g == f.(shareId := shareId)
  {
    hide Acknowledged;
    if files != [] {
      var init, last := files[..|files| - 1], files[|files| - 1];
      assert files == init + [last];
      AcceptedIn(response, init, shareId, g);
      assert forall f :: f in files <==> f in init || f == last;
    }
  }

  lemma {:induction false} AcceptedPathIn(response: Response, paths: seq<string>, p: string)
    ensures p in AcceptedPaths(response, paths) <==> p in paths && Acknowledged(response, p)
  {
    hide Acknowledged;
    if paths != [] {
      var init, last := paths[..|paths| - 1], paths[|paths| - 1];
      assert paths == init + [last];
      AcceptedPathIn(response, init, p);
    }
  }

  /** One batch, recorded in full or in part, leaves every other row as it was. */
  lemma {:induction false} BatchUntouched(before: Rows, e: Exchange, shareId: string, upserted: nat, marked: nat, p: string)
    requires upserted <= |AcceptedFiles(e.response, e.files, shareId)| && marked <= |AcceptedPaths(e.response, e.deletions)|
    requires !TakenIn(e, p)
    ensures var files, paths := AcceptedFiles(e.response, e.files, shareId)[..upserted],
                                AcceptedPaths(e.response, e.deletions)[..marked];
      var now := MarkAll(UpsertAll(before, files), paths);
      && (p in now <==> p in before)
      && (p in before ==> now[p] == before[p])
  {
    var files := AcceptedFiles(e.response, e.files, shareId);
    var paths := AcceptedPaths(e.response, e.deletions);
    forall g | g in files[..upserted]
      ensures g.path != p
    {
      AcceptedIn(e.response, e.files, shareId, g);
    }
    AcceptedPathIn(e.response, e.deletions, p);
    assert p !in paths[..marked];
    UpsertAt(before, files[..upserted], p);
    MarkAt(UpsertAll(before, files[..upserted]), paths[..marked], p);
  }

  lemma RecordedUntouched(before: Rows, e: Exchange, shareId: string, p: string)
    requires !TakenIn(e, p)
    ensures var now := Recorded(before, e, shareId);
      (p in now <==> p in before) && (p in before ==> now[p] == before[p])
  {
    var files := AcceptedFiles(e.response, e.files, shareId);
    var paths := AcceptedPaths(e.response, e.deletions);
    hide AcceptedFiles, AcceptedPaths, UpsertAll, MarkAll, TakenIn;
    BatchUntouched(before, e, shareId, |files|, |paths|, p);
    assert files[..|files|] == files && paths[..|paths|] == paths;
  }

  lemma {:induction false} AllUntouched(before: Rows, exchanges: seq<Exchange>, shareId: string, p: string)
    requires !SentAndTaken(exchanges, p)
    ensures var now := RecordedAll(before, exchanges, shareId);
      (p in now <==> p in before) && (p in before ==> now[p] == before[p])
  {
    hide Recorded, TakenIn;
    if exchanges != [] {
      var init, last := exchanges[..|exchanges| - 1], exchanges[|exchanges| - 1];
      assert last in exchanges && forall e :: e in init ==> e in exchanges;
      AllUntouched(before, init, shareId, p);
      RecordedUntouched(RecordedAll(before, init, shareId), last, shareId, p);
    }
  }

  /** Whichever request or ledger write fails, a row changes only if a reply without an error
      for its path, and without one for the whole request, answered a request that named it. */
  lemma OnlyAcknowledged(before: Rows, r: SyncRun, now: Rows, p: string)
    requires SyncOutcome(before, r, now)
    ensures !SentAndTaken(r.exchanges, p) ==> (p in now <==> p in before) && (p in before ==> now[p] == before[p])
  {
    if !SentAndTaken(r.exchanges, p) {
      hide Recorded, RecordedAll, TakenIn, RequestsInOrder, AllReplied, UpsertAll, MarkAll, AcceptedFiles, AcceptedPaths;
      match r.end {
        case NotNeeded =>
        case Completed => AllUntouched(before, r.exchanges, r.shareId, p);
        case RequestFailed =>
          EarlierUntouched(before, r, p);
        case LedgerFailed(upserted, marked) =>
          var n := |r.exchanges| - 1;
          EarlierUntouched(before, r, p);
          BatchUntouched(RecordedAll(before, r.exchanges[..n], r.shareId), r.exchanges[n], r.shareId, upserted, marked, p);
      }
    }
  }

  lemma EarlierUntouched(before: Rows, r: SyncRun, p: string)
    requires r.exchanges != [] && !SentAndTaken(r.exchanges, p)
    ensures var done := RecordedAll(before, r.exchanges[..|r.exchanges| - 1], r.shareId);
      (p in done <==> p in before) && (p in before ==> done[p] == before[p])
    ensures !TakenIn(r.exchanges[|r.exchanges| - 1], p)
  {
    hide TakenIn, RecordedAll;
    var n := |r.exchanges| - 1;
    assert r.exchanges[n] in r.exchanges && forall e :: e in r.exchanges[..n] ==> e in r.exchanges;
    AllUntouched(before, r.exchanges[..n], r.shareId, p);
  }

  // ----- all of it, when there are no errors -----

  ghost predicate NoErrors(exchanges: seq<Exchange>) {
    forall e :: e in exchanges ==> e.response == Reply([])
  }

  ghost predicate DistinctPaths(files: seq<FileInfo>) {
    forall f, g :: f in files && g in files && f.path == g.path ==> f == g
  }

  ghost predicate Disjoint(files: seq<FileInfo>, paths: seq<string>) {
    forall f :: f in files ==> f.path !in paths
  }

  /** What the ledger should say about a path once the files and the deletions are recorded. */
  ghost predicate RowAsReported(before: Rows, files: seq<FileInfo>, paths: seq<string>, shareId: string, now: Rows, p: string) {
    && (forall f :: f in files && f.path == p ==> p in now && now[p] == f.(shareId := shareId))
    && (Unsent(files, p) ==>
          && (p in now <==> p in before)
          && (p in before ==> now[p] == if p in paths then before[p].(isDeleted := true) else before[p]))
  }

  ghost predicate Unsent(files: seq<FileInfo>, p: string) {
    forall f :: f in files ==> f.path != p
  }

  lemma {:induction false} AcceptedWithoutErrors(e: Exchange, shareId: string)
    requires e.response == Reply([])
    ensures forall g ::
              g in AcceptedFiles(e.response, e.files, shareId) <==> exists f :: f in e.files && g == f.(shareId := shareId)
    ensures forall p :: p in AcceptedPaths(e.response, e.deletions) <==> p in e.deletions
  {
    forall g
      ensures g in AcceptedFiles(e.response, e.files, shareId) <==> exists f :: f in e.files && g == f.(shareId := shareId)
    {
      AcceptedIn(e.response, e.files, shareId, g);
    }
    forall p
      ensures p in AcceptedPaths(e.response, e.deletions) <==> p in e.deletions
    {
      AcceptedPathIn(e.response, e.deletions, p);
    }
  }

  lemma {:induction false} UpsertedFile(rows: Rows, files: seq<FileInfo>, accepted: seq<FileInfo>, shareId: string, f: FileInfo)
    requires forall g :: g in accepted <==> exists x :: x in files && g == x.(shareId := shareId)
    requires DistinctPaths(files) && f in files
    ensures f.path in UpsertAll(rows, accepted) && UpsertAll(rows, accepted)[f.path] == f.(shareId := shareId)
  {
    UpsertAt(rows, accepted, f.path);
    hide UpsertAll;
    assert f.(shareId := shareId) in accepted && f.(shareId := shareId).path == f.path;
    var stored := UpsertAll(rows, accepted)[f.path];
    var x :| x in files && stored == x.(shareId := shareId);
    assert x == f;
  }

  lemma OneBatchReported(before: Rows, e: Exchange, shareId: string, p: string)
    requires e.response == Reply([])
    requires DistinctPaths(e.files) && Disjoint(e.files, e.deletions)
    ensures RowAsReported(before, e.files, e.deletions, shareId, Recorded(before, e, shareId), p)
  {
    var files, paths := AcceptedFiles(e.response, e.files, shareId), AcceptedPaths(e.response, e.deletions);
    var upserted := UpsertAll(before, files);
    AcceptedWithoutErrors(e, shareId);
    UpsertAt(before, files, p);
    MarkAt(upserted, paths, p);
    hide AcceptedFiles, AcceptedPaths, UpsertAll, MarkAll, DistinctPaths;
    forall f | f in e.files && f.path == p
      ensures p in upserted && upserted[p] == f.(shareId := shareId) && p !in paths
    {
      UpsertedFile(before, e.files, files, shareId, f);
    }
    assert Unsent(e.files, p) ==> Unsent(files, p);
  }

  lemma SplitSent(exchanges: seq<Exchange>)
    requires exchanges != []
    ensures var init, last := exchanges[..|exchanges| - 1], exchanges[|exchanges| - 1];
      && (forall f :: f in FilesSent(exchanges) <==> f in FilesSent(init) || f in last.files)
      && (forall p :: p in DeletionsSent(exchanges) <==> p in DeletionsSent(init) || p in last.deletions)
      && (forall e :: e in exchanges <==> e in init || e == last)
  {
    var init, last := exchanges[..|exchanges| - 1], exchanges[|exchanges| - 1];
    assert exchanges == init + [last];
  }

  lemma {:induction false} AllReported(before: Rows, exchanges: seq<Exchange>, shareId: string, p: string)
    requires NoErrors(exchanges)
    requires DistinctPaths(FilesSent(exchanges)) && Disjoint(FilesSent(exchanges), DeletionsSent(exchanges))
    ensures RowAsReported(before, FilesSent(exchanges), DeletionsSent(exchanges), shareId,
                          RecordedAll(before, exchanges, shareId), p)
  {
    if exchanges != [] {
      var init, last := exchanges[..|exchanges| - 1], exchanges[|exchanges| - 1];
      SplitSent(exchanges);
      hide FilesSent, DeletionsSent, Recorded, RowAsReported;
      AllReported(before, init, shareId, p);
      var was := RecordedAll(before, init, shareId);
      OneBatchReported(was, last, shareId, p);
      ReportedThen(before, FilesSent(init), DeletionsSent(init), was, last.files, last.deletions, Recorded(was, last, shareId),
                   FilesSent(exchanges), DeletionsSent(exchanges), shareId, p);
    }
  }

  /** One report after the other is the report of both together. */
  lemma ReportedThen(before: Rows, a: seq<FileInfo>, x: seq<string>, was: Rows, b: seq<FileInfo>, y: seq<string>, now: Rows,
                     files: seq<FileInfo>, paths: seq<string>, shareId: string, p: string)
    requires RowAsReported(before, a, x, shareId, was, p) && RowAsReported(was, b, y, shareId, now, p)
    requires forall f :: f in files <==> f in a || f in b
    requires forall q :: q in paths <==> q in x || q in y
    requires DistinctPaths(files) && Disjoint(files, paths)
    ensures RowAsReported(before, files, paths, shareId, now, p)
  {
    if f :| f in files && f.path == p {
      assert forall g :: g in files && g.path == p ==> g == f;
      if f in b {
      } else {
        assert Unsent(b, p);
      }
    } else {
      assert Unsent(a, p) && Unsent(b, p);
    }
  }

  /** A run without errors records every candidate as it was sent, marks every deletion, and
      leaves every other row alone. */
  lemma ErrorFreeRunRecordsAll(before: Rows, r: SyncRun, now: Rows, p: string)
    requires SyncOutcome(before, r, now) && r.end == Completed && NoErrors(r.exchanges)
    requires DistinctPaths(r.candidates) && Disjoint(r.candidates, r.deletions)
    ensures RowAsReported(before, r.candidates, r.deletions, r.shareId, now, p)
  {
    RequestsPartition(before, r, now);
    hide FilesSent, DeletionsSent, RecordedAll, RowAsReported, RequestsInOrder, AllReplied;
    AllReported(before, r.exchanges, r.shareId, p);
  }

  // ----- identities -----

  /** Where the identity in a row comes from. */
  ghost predicate IdentityFrom(before: Rows, files: seq<FileInfo>, now: Rows, p: string) {
    p in now ==> (p in before && now[p].sourceId == before[p].sourceId)
                 || exists f :: f in files && f.path == p && now[p].sourceId == f.sourceId
  }

  lemma {:induction false} BatchIdentity(before: Rows, e: Exchange, shareId: string, upserted: nat, marked: nat, p: string)
    requires upserted <= |AcceptedFiles(e.response, e.files, shareId)| && marked <= |AcceptedPaths(e.response, e.deletions)|
    ensures IdentityFrom(before, e.files,
      MarkAll(UpsertAll(before, AcceptedFiles(e.response, e.files, shareId)[..upserted]),
              AcceptedPaths(e.response, e.deletions)[..marked]), p)
  {
    var files := AcceptedFiles(e.response, e.files, shareId)[..upserted];
    var paths := AcceptedPaths(e.response, e.deletions)[..marked];
    var was := UpsertAll(before, files);
    UpsertAt(before, files, p);
    MarkAt(was, paths, p);
    if g :| g in files && g.path == p {
      AcceptedIn(e.response, e.files, shareId, was[p]);
    }
  }

  lemma RecordedIdentity(before: Rows, e: Exchange, shareId: string, p: string)
    ensures IdentityFrom(before, e.files, Recorded(before, e, shareId), p)
  {
    var files, paths := AcceptedFiles(e.response, e.files, shareId), AcceptedPaths(e.response, e.deletions);
    hide AcceptedFiles, AcceptedPaths, UpsertAll, MarkAll, IdentityFrom;
    BatchIdentity(before, e, shareId, |files|, |paths|, p);
    assert files[..|files|] == files && paths[..|paths|] == paths;
  }

  lemma ChainIdentity(before: Rows, a: seq<FileInfo>, was: Rows, b: seq<FileInfo>, now: Rows, all: seq<FileInfo>, p: string)
    requires IdentityFrom(before, a, was, p) && IdentityFrom(was, b, now, p)
    requires forall f :: f in a || f in b ==> f in all
    ensures IdentityFrom(before, all, now, p)
  {}

  lemma {:induction false} AllIdentity(before: Rows, exchanges: seq<Exchange>, shareId: string, p: string)
    ensures IdentityFrom(before, FilesSent(exchanges), RecordedAll(before, exchanges, shareId), p)
  {
    if exchanges != [] {
      var init, last := exchanges[..|exchanges| - 1], exchanges[|exchanges| - 1];
      SplitSent(exchanges);
      var was := RecordedAll(before, init, shareId);
      hide FilesSent, DeletionsSent, Recorded, IdentityFrom;
      AllIdentity(before, init, shareId, p);
      RecordedIdentity(was, last, shareId, p);
      ChainIdentity(before, FilesSent(init), was, last.files, Recorded(was, last, shareId), FilesSent(exchanges), p);
    }
  }

  lemma SentAreCandidates(r: SyncRun, k: nat)
    requires RequestsInOrder(r) && k <= |r.exchanges|
    ensures forall f :: f in FilesSent(r.exchanges[..k]) ==> f in r.candidates
  {
    SentSoFar(r, k);
  }

  lemma RunIdentity(before: Rows, r: SyncRun, now: Rows, p: string)
    requires SyncOutcome(before, r, now)
    ensures IdentityFrom(before, r.candidates, now, p)
  {
    hide FilesSent, DeletionsSent, Recorded, RecordedAll, RequestsInOrder, AllReplied, UpsertAll, MarkAll, AcceptedFiles,
         AcceptedPaths, IdentityFrom;
    var n := |r.exchanges|;
    SentAreCandidates(r, n);
    assert r.exchanges[..n] == r.exchanges;
    if n == 0 || r.end == Completed {
      var all := RecordedAll(before, r.exchanges, r.shareId);
      AllIdentity(before, r.exchanges, r.shareId, p);
      SameIdentity(all, now, p);
      if r.end == Completed {
        ChainIdentity(before, FilesSent(r.exchanges), all, [], now, r.candidates, p);
      } else {
        SameIdentity(before, now, p);
        WeakenIdentity(before, [], now, r.candidates, p);
      }
    } else {
      LastIdentity(before, r, now, p);
    }
  }

  lemma LastIdentity(before: Rows, r: SyncRun, now: Rows, p: string)
    requires SyncOutcome(before, r, now) && r.exchanges != [] && r.end != Completed
    ensures IdentityFrom(before, r.candidates, now, p)
  {
    hide FilesSent, DeletionsSent, Recorded, RecordedAll, RequestsInOrder, AllReplied, UpsertAll, MarkAll, AcceptedFiles,
         AcceptedPaths, IdentityFrom;
    var n := |r.exchanges|;
    var done, last := RecordedAll(before, r.exchanges[..n - 1], r.shareId), r.exchanges[n - 1];
    SentAreCandidates(r, n);
    SentAreCandidates(r, n - 1);
    assert r.exchanges[..n] == r.exchanges;
    SplitSent(r.exchanges);
    AllIdentity(before, r.exchanges[..n - 1], r.shareId, p);
    if r.end.LedgerFailed? {
      BatchIdentity(done, last, r.shareId, r.end.upserted, r.end.marked, p);
      ChainIdentity(before, FilesSent(r.exchanges[..n - 1]), done, last.files, now, r.candidates, p);
    } else {
      SameIdentity(done, now, p);
      ChainIdentity(before, FilesSent(r.exchanges[..n - 1]), done, [], now, r.candidates, p);
    }
  }

  lemma WeakenIdentity(before: Rows, a: seq<FileInfo>, now: Rows, all: seq<FileInfo>, p: string)
    requires IdentityFrom(before, a, now, p) && forall f :: f in a ==> f in all
    ensures IdentityFrom(before, all, now, p)
  {}

  lemma SameIdentity(before: Rows, now: Rows, p: string)
    ensures before == now ==> IdentityFrom(before, [], now, p)
  {}

  /** A path keeps its identity through any synchronisation, however it ends. */
  lemma IdentityIsStable(before: Rows, files: seq<FileInfo>, revision: FileInfo -> string, r: SyncRun, now: Rows, p: string)
    requires SyncOutcome(before, r, now) && IdentifiedAll(before, files, r.candidates, revision)
    requires p in before && HasIdentity(before[p].sourceId)
    ensures p in now ==> now[p].sourceId == before[p].sourceId
  {
    RunIdentity(before, r, now, p);
    hide SyncOutcome;
  }

  // ----- the reported count -----

  lemma {:induction false} BackfilledBounds(files: seq<FileInfo>, backfill: set<string>)
    ensures Backfilled(files, backfill) <= |files|
    ensures (forall f :: f in files ==> f.path in backfill) ==> Backfilled(files, backfill) == |files|
    ensures (forall f :: f in files ==> f.path !in backfill) ==> Backfilled(files, backfill) == 0
  {
    if files != [] {
      var init, last := files[..|files| - 1], files[|files| - 1];
      assert files == init + [last];
      BackfilledBounds(init, backfill);
    }
  }

  lemma {:induction false} BackfilledAppend(a: seq<FileInfo>, b: seq<FileInfo>, backfill: set<string>)
    ensures Backfilled(a + b, backfill) == Backfilled(a, backfill) + Backfilled(b, backfill)
  {
    if b == [] {
      assert a + b == a;
    } else {
      assert (a + b)[..|a + b| - 1] == a + b[..|b| - 1];
      BackfilledAppend(a, b[..|b| - 1], backfill);
    }
  }

  lemma {:induction false} BackfillsAreSynced(exchanges: seq<Exchange>, shareId: string, backfill: set<string>)
    ensures AcceptedBackfills(exchanges, shareId, backfill) <= SyncedCount(exchanges, shareId)
  {
    if exchanges != [] {
      var last := exchanges[|exchanges| - 1];
      BackfillsAreSynced(exchanges[..|exchanges| - 1], shareId, backfill);
      BackfilledBounds(AcceptedFiles(last.response, last.files, shareId), backfill);
    }
  }

  /** New and changed files accepted in the batches whose ledger writes completed. */
  ghost function AcceptedChanges(r: SyncRun, backfill: set<string>): int {
    SyncedCount(Finished(r), r.shareId) - AcceptedBackfills(Finished(r), r.shareId, backfill)
  }

  /** Backfills accepted in the batch whose ledger write failed. */
  ghost function UnrecordedBackfills(r: SyncRun, backfill: set<string>): nat {
    if r.end.LedgerFailed? && r.exchanges != [] then
      var last := r.exchanges[|r.exchanges| - 1];
      Backfilled(AcceptedFiles(last.response, last.files, r.shareId), backfill)
    else 0
  }

  lemma CountIsShort(r: SyncRun, same: nat, backfill: set<string>)
    requires r.end.LedgerFailed? && r.exchanges != []
    ensures AcceptedChanges(r, backfill) >= 0
    ensures var changes, lost := AcceptedChanges(r, backfill), UnrecordedBackfills(r, backfill);
      ReportedCount(r, same, backfill) == same + if changes >= lost then changes - lost else 0
  {
    hide AcceptedFiles, Backfilled, SyncedCount;
    BackfillsAreSynced(Finished(r), r.shareId, backfill);
  }

  /** The report counts the unchanged files and each accepted change once, exactly when the
      failing batch held no accepted backfill or nothing changed had been accepted before it. */
  lemma CountIsRightIff(r: SyncRun, same: nat, backfill: set<string>)
    ensures AcceptedChanges(r, backfill) >= 0
    ensures ReportedCount(r, same, backfill) == same + AcceptedChanges(r, backfill)
      <==> UnrecordedBackfills(r, backfill) == 0 || AcceptedChanges(r, backfill) == 0
  {
    hide AcceptedFiles, Backfilled, SyncedCount;
    BackfillsAreSynced(Finished(r), r.shareId, backfill);
  }

  lemma {:induction false} AcceptedAllFiles(files: seq<FileInfo>, shareId: string, backfill: set<string>)
    ensures |AcceptedFiles(Reply([]), files, shareId)| == |files|
    ensures Backfilled(AcceptedFiles(Reply([]), files, shareId), backfill) == Backfilled(files, backfill)
  {
    if files != [] {
      var last := files[|files| - 1];
      AcceptedAllFiles(files[..|files| - 1], shareId, backfill);
      var accepted := AcceptedFiles(Reply([]), files[..|files| - 1], shareId);
      assert AcceptedFiles(Reply([]), files, shareId) == accepted + [last.(shareId := shareId)];
      hide AcceptedFiles;
      BackfilledAppend(accepted, [last.(shareId := shareId)], backfill);
      assert [last.(shareId := shareId)][..0] == [];
    }
  }

  lemma {:induction false} ErrorFreeCounts(exchanges: seq<Exchange>, shareId: string, backfill: set<string>)
    requires NoErrors(exchanges)
    ensures SyncedCount(exchanges, shareId) == |FilesSent(exchanges)|
    ensures AcceptedBackfills(exchanges, shareId, backfill) == Backfilled(FilesSent(exchanges), backfill)
  {
    if exchanges != [] {
      var init, last := exchanges[..|exchanges| - 1], exchanges[|exchanges| - 1];
      SplitSent(exchanges);
      ErrorFreeCounts(init, shareId, backfill);
      hide AcceptedFiles, Backfilled;
      AcceptedAllFiles(last.files, shareId, backfill);
      BackfilledAppend(FilesSent(init), last.files, backfill);
    }
  }

  lemma SentWithoutErrors(before: Rows, r: SyncRun, now: Rows)
    requires SyncOutcome(before, r, now) && (r.end == Completed || r.end == NotNeeded)
    ensures FilesSent(r.exchanges) == r.candidates && Finished(r) == r.exchanges
  {
    if r.end == Completed {
      RequestsPartition(before, r, now);
    }
    hide RecordedAll, RequestsInOrder, AllReplied;
  }

  lemma {:induction false} CountWhenCompleted(r: SyncRun, same: nat, backfill: set<string>)
    requires r.end == Completed || r.end == NotNeeded
    ensures var synced, backfills := SyncedCount(r.exchanges, r.shareId), AcceptedBackfills(r.exchanges, r.shareId, backfill);
      ReportedCount(r, same, backfill) == same + if synced >= backfills then synced - backfills else 0
  {
    hide SyncedCount, AcceptedBackfills;
  }

  /** Without errors the report counts every scanned file once. */
  lemma {:induction false} ErrorFreeCountsEachFileOnce(before: Rows, r: SyncRun, now: Rows, changed: seq<FileInfo>,
                                                       unchangedFiles: seq<FileInfo>, revision: FileInfo -> string)
    requires SyncOutcome(before, r, now) && (r.end == Completed || r.end == NotNeeded) && NoErrors(r.exchanges)
    requires IdentifiedAll(before, changed + WithoutIdentity(unchangedFiles), r.candidates, revision)
    requires forall f, g :: f in changed && g in unchangedFiles ==> f.path != g.path
    ensures ReportedCount(r, |unchangedFiles|, PathsOf(WithoutIdentity(unchangedFiles))) == |changed| + |unchangedFiles|
  {
    hide SyncOutcome, WithoutIdentity, PathsOf, ReportedCount, NoErrors, Finished;
    var backfills := WithoutIdentity(unchangedFiles);
    var backfill := PathsOf(backfills);
    var n := |changed|;
    var first, rest := r.candidates[..n], r.candidates[n..];
    assert r.candidates == first + rest;
    SentWithoutErrors(before, r, now);
    ErrorFreeCounts(r.exchanges, r.shareId, backfill);
    WithoutIdentityIn(unchangedFiles);
    CandidatePaths(before, changed, backfills, r.candidates, revision);
    assert |r.candidates| == n + |backfills|;
    CountWhenCompleted(r, |unchangedFiles|, backfill);
    hide *;
    BackfilledAppend(first, rest, backfill);
    BackfilledBounds(first, backfill);
    BackfilledBounds(rest, backfill);
  }

  lemma CandidatePaths(before: Rows, changed: seq<FileInfo>, backfills: seq<FileInfo>, candidates: seq<FileInfo>,
                       revision: FileInfo -> string)
    requires IdentifiedAll(before, changed + backfills, candidates, revision)
    requires forall f, g :: f in changed && g in backfills ==> f.path != g.path
    ensures forall f :: f in candidates[..|changed|] ==> f.path !in PathsOf(backfills)
    ensures forall f :: f in candidates[|changed|..] ==> f.path in PathsOf(backfills)
  {
    var n := |changed|;
    forall k: nat | k < |candidates|
      ensures candidates[k].path == if k < n then changed[k].path else backfills[k - n].path
    {
      assert Identified(before, (changed + backfills)[k], candidates[k], revision);
    }
    forall f | f in candidates[..n]
      ensures f.path !in PathsOf(backfills)
    {
      var k :| 0 <= k < n && candidates[k] == f;
      var c := changed[k];
      assert c in changed && f.path == c.path;
    }
    forall f | f in candidates[n..]
      ensures f.path in PathsOf(backfills)
    {
      var k :| n <= k < |candidates| && candidates[k] == f;
      assert backfills[k - n] in backfills && backfills[k - n].path == f.path;
    }
  }

  lemma {:induction false} WithoutIdentityIn(files: seq<FileInfo>)
    ensures forall f :: f in WithoutIdentity(files) <==> f in files && NeedsBackfill(f)
  {
    if files != [] {
      var init, last := files[..|files| - 1], files[|files| - 1];
      assert files == init + [last];
      WithoutIdentityIn(init);
    }
  }

  /** The condition can fail: a full batch of changes, then a lone backfill whose ledger write
      fails, and the report is one short. */
  lemma BackfillLostFromCount(before: Rows, changed: seq<FileInfo>, legacy: FileInfo, shareId: string, same: nat)
    requires |changed| == SYNC_BATCH_SIZE && forall f :: f in changed ==> f.path != legacy.path
    ensures var sent := [Exchange(changed, [], Reply([])), Exchange([legacy], [], Reply([]))];
      var r := SyncRun(changed + [legacy], [], shareId, sent, LedgerFailed(0, 0));
      && (exists now :: SyncOutcome(before, r, now))
      && ReportedCount(r, same, {legacy.path}) == same + AcceptedChanges(r, {legacy.path}) - 1
  {
    TwoRequests(before, changed, legacy, shareId);
    TwoCounts(changed, legacy, shareId);
    hide *;
    CountIsShort(SyncRun(changed + [legacy], [], shareId, [Exchange(changed, [], Reply([])), Exchange([legacy], [], Reply([]))],
                         LedgerFailed(0, 0)), same, {legacy.path});
  }

  lemma TwoCounts(changed: seq<FileInfo>, legacy: FileInfo, shareId: string)
    requires |changed| == SYNC_BATCH_SIZE && forall f :: f in changed ==> f.path != legacy.path
    ensures var sent := [Exchange(changed, [], Reply([])), Exchange([legacy], [], Reply([]))];
      var r := SyncRun(changed + [legacy], [], shareId, sent, LedgerFailed(0, 0));
      AcceptedChanges(r, {legacy.path}) == SYNC_BATCH_SIZE && UnrecordedBackfills(r, {legacy.path}) == 1
  {
    AcceptedAllFiles(changed, shareId, {legacy.path});
    AcceptedAllFiles([legacy], shareId, {legacy.path});
    BackfilledBounds(changed, {legacy.path});
    BackfilledBounds([legacy], {legacy.path});
    hide AcceptedFiles, Backfilled;
    CountsBeforeLast(Exchange(changed, [], Reply([])), Exchange([legacy], [], Reply([])), changed + [legacy], shareId,
                     {legacy.path});
  }

  lemma {:induction false} CountsBeforeLast(one: Exchange, two: Exchange, candidates: seq<FileInfo>, shareId: string,
                                            backfill: set<string>)
    ensures var r := SyncRun(candidates, [], shareId, [one, two], LedgerFailed(0, 0));
      var files := AcceptedFiles(one.response, one.files, shareId);
      && AcceptedChanges(r, backfill) == |files| - Backfilled(files, backfill)
      && UnrecordedBackfills(r, backfill) == Backfilled(AcceptedFiles(two.response, two.files, shareId), backfill)
  {
    hide AcceptedFiles, Backfilled;
    var none: seq<Exchange> := [];
    OneMoreCounted(none, one, shareId, backfill);
    NothingCounted(shareId, backfill);
    hide SyncedCount, AcceptedBackfills;
    assert none + [one] == [one] && [one, two][..1] == [one];
  }

  lemma {:induction false} NothingCounted(shareId: string, backfill: set<string>)
    ensures SyncedCount([], shareId) == 0 && AcceptedBackfills([], shareId, backfill) == 0
  {}

  lemma {:induction false} TwoRequests(before: Rows, changed: seq<FileInfo>, legacy: FileInfo, shareId: string)
    requires |changed| == SYNC_BATCH_SIZE
    ensures var one, two := Exchange(changed, [], Reply([])), Exchange([legacy], [], Reply([]));
      SyncOutcome(before, SyncRun(changed + [legacy], [], shareId, [one, two], LedgerFailed(0, 0)),
                  RecordedAll(before, [one], shareId))
  {
    var one, two := Exchange(changed, [], Reply([])), Exchange([legacy], [], Reply([]));
    var r := SyncRun(changed + [legacy], [], shareId, [one, two], LedgerFailed(0, 0));
    var now := RecordedAll(before, [one], shareId);
    assert r.exchanges[..1] == [one];
    assert Batch(r.candidates, 0) == changed && Batch(r.candidates, 1) == [legacy];
    assert BatchOutcome(now, two, shareId, r.end, now) by {
      assert AcceptedFiles(two.response, two.files, shareId)[..0] == [] && AcceptedPaths(two.response, two.deletions)[..0] == [];
    }
    hide BatchOutcome, RecordedAll, Batch;
  }
}
