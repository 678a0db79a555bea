/** The durable queue of the agent's local index: a manifest table, the derived full-text table,
    and every transaction on them. A table is keyed by path; rowids give its scan order. */
module IndexTables {
  import opened Wrappers
  import opened Extraction
  import opened NativeAcl

  const SUPPORTED: set<string> := {".pdf", ".docx", ".docm", ".txt", ".rtf"}
  const MAX_ATTEMPTS: nat := 3
  const LEASE_SECONDS: real := 300.0

  datatype Status = Pending | Running | Ready | Failed | Unsupported

  /** What makes two scans of a path the same file. */
  datatype Identity = Identity(shareId: string, ext: string, contentHash: Option<string>, size: int,
                               modified: Option<string>)

  datatype FileRow = FileRow(
    rowid: nat,
    id: Identity,
    status: Status,
    attempts: nat,
    leaseUntil: Option<real>,
    nextAttemptAt: Option<real>,
    pageCount: Option<nat>,
    error: Option<string>,
    acl: Option<AclRecord>,
    aclCapturedAt: Option<int>)

  datatype FtsRow = FtsRow(text: string, path: string, shareId: string, page: Option<nat>, ordinal: nat, ext: string)

  datatype Tables = Tables(files: map<string, FileRow>, fts: seq<FtsRow>, nextRowid: nat)

  /** Settings, and the path suffix function of the platform's path type. */
  datatype Config = Config(maxFileBytes: nat, maxTextChars: nat, aclRefreshSeconds: int, suffixOf: string -> string)

  datatype FileInfo = FileInfo(path: string, shareId: string, ext: string, contentHash: Option<string>, size: int,
                               modified: Option<string>)

  /** One exact claim of a row: its identity, the attempts it was read with, and the fencing
      pair of attempt number and lease. */
  datatype Job = Job(path: string, id: Identity, attempts: nat, claimAttempt: nat, claimLease: real)

  function LowerChar(c: char): char {
    if 'A' <= c <= 'Z' then c - 'A' + 'a' else c
  }

  function Lower(s: string): string {
    seq(|s|, k requires 0 <= k < |s| => LowerChar(s[k]))
  }

  // ----- the full-text table -----

  function RowsAt(fts: seq<FtsRow>, path: string): seq<FtsRow> {
    if fts == [] then []
    else (if fts[0].path == path then [fts[0]] else []) + RowsAt(fts[1..], path)
  }

  function Without(fts: seq<FtsRow>, path: string): seq<FtsRow> {
    if fts == [] then []
    else (if fts[0].path == path then [] else [fts[0]]) + Without(fts[1..], path)
  }

  function FtsRowsFor(cfg: Config, job: Job, rows: seq<ChunkRow>): (result: seq<FtsRow>)
    ensures |result| == |rows|
    ensures forall k :: 0 <= k < |rows| ==>
              result[k] == FtsRow(rows[k].text, job.path, job.id.shareId, rows[k].page, rows[k].ordinal,
                                  Lower(cfg.suffixOf(job.path)))
  {
    seq(|rows|, k requires 0 <= k < |rows| =>
      FtsRow(rows[k].text, job.path, job.id.shareId, rows[k].page, rows[k].ordinal, Lower(cfg.suffixOf(job.path))))
  }

  lemma {:induction false} RowsAtAppend(a: seq<FtsRow>, b: seq<FtsRow>, path: string)
    ensures RowsAt(a + b, path) == RowsAt(a, path) + RowsAt(b, path)
  {
    if a == [] {
      assert a + b == b;
    } else {
      assert (a + b)[1..] == a[1..] + b;
      RowsAtAppend(a[1..], b, path);
    }
  }

  lemma {:induction false} RowsAtWithout(fts: seq<FtsRow>, gone: string, path: string)
    ensures RowsAt(Without(fts, gone), path) == if path == gone then [] else RowsAt(fts, path)
  {
    if fts != [] {
      var head := if fts[0].path == gone then [] else [fts[0]];
      RowsAtWithout(fts[1..], gone, path);
      RowsAtAppend(head, Without(fts[1..], gone), path);
      assert head != [] ==> head[1..] == [];
    }
  }

  lemma {:induction false} RowsAtOfOnePath(rows: seq<FtsRow>, owner: string, path: string)
    requires forall k :: 0 <= k < |rows| ==> rows[k].path == owner
    ensures RowsAt(rows, path) == if path == owner then rows else []
  {
    if rows != [] {
      RowsAtOfOnePath(rows[1..], owner, path);
    }
  }

  // ----- enqueue and delete -----

  function IdentityOf(cfg: Config, f: FileInfo): Identity {
    Identity(f.shareId, Lower(if f.ext != "" then f.ext else cfg.suffixOf(f.path)), f.contentHash, f.size, f.modified)
  }

  function InitialStatus(cfg: Config, id: Identity): (Status, Option<string>) {
    if id.ext !in SUPPORTED then (Unsupported, Some("unsupported_format"))
    else if id.size > cfg.maxFileBytes then (Failed, Some("file_too_large"))
    else (Pending, None)
  }

  function FreshRow(cfg: Config, rowid: nat, f: FileInfo): FileRow {
    var id := IdentityOf(cfg, f);
    var (status, error) := InitialStatus(cfg, id);
    FileRow(rowid, id, status, 0, None, None, None, error, None, None)
  }

  function EnqueueOne(cfg: Config, t: Tables, f: FileInfo, onlyIfMissing: bool): Tables {
    if f.path !in t.files then
      Tables(t.files[f.path := FreshRow(cfg, t.nextRowid, f)],
             if onlyIfMissing then t.fts else Without(t.fts, f.path), t.nextRowid + 1)
    else if onlyIfMissing then t
    else t.(files := t.files[f.path := FreshRow(cfg, t.files[f.path].rowid, f)], fts := Without(t.fts, f.path))
  }

  function EnqueueAll(cfg: Config, t: Tables, files: seq<FileInfo>, onlyIfMissing: bool): Tables {
    if files == [] then t
    else EnqueueOne(cfg, EnqueueAll(cfg, t, files[..|files| - 1], onlyIfMissing), files[|files| - 1], onlyIfMissing)
  }

  predicate AclDue(cfg: Config, row: FileRow, now: real) {
    && row.status == Ready
    && (row.aclCapturedAt.None? || row.aclCapturedAt.value < now.Floor - cfg.aclRefreshSeconds)
  }

  function RefreshRow(cfg: Config, row: FileRow, now: real): FileRow {
    if AclDue(cfg, row, now) then row.(status := Pending, attempts := 0, leaseUntil := None, nextAttemptAt := None) else row
  }

  function RefreshAcls(cfg: Config, t: Tables, now: real): Tables {
    t.(files := map p | p in t.files :: RefreshRow(cfg, t.files[p], now))
  }

  function EnqueueMany(cfg: Config, t: Tables, files: seq<FileInfo>, onlyIfMissing: bool, now: real): Tables {
    RefreshAcls(cfg, EnqueueAll(cfg, t, files, onlyIfMissing), now)
  }

  function DeleteOne(t: Tables, path: string): Tables {
    t.(files := t.files - {path}, fts := Without(t.fts, path))
  }

  function DeleteAll(t: Tables, paths: seq<string>): Tables {
    if paths == [] then t else DeleteOne(DeleteAll(t, paths[..|paths| - 1]), paths[|paths| - 1])
  }

  // ----- claim, publish, fail, recover -----

  predicate Eligible(row: FileRow, now: real) {
    || (row.status == Pending && (row.nextAttemptAt.None? || row.nextAttemptAt.value <= now))
    || (row.status == Running && row.leaseUntil.Some? && row.leaseUntil.value < now)
  }

  predicate FirstEligible(t: Tables, path: string, now: real) {
    && path in t.files
    && Eligible(t.files[path], now)
    && forall q :: q in t.files && Eligible(t.files[q], now) ==> t.files[path].rowid <= t.files[q].rowid
  }

  predicate NoneEligible(t: Tables, now: real) {
    forall q :: q in t.files ==> !Eligible(t.files[q], now)
  }

  /** Waiting for the time of its next attempt. */
  predicate Delayed(row: FileRow) {
    row.status == Pending && row.nextAttemptAt.Some?
  }

  /** The earliest time at which a delayed row is due again, if there is one. */
  ghost predicate IsNextRetry(t: Tables, next: Option<real>) {
    match next
    case None => forall q :: q in t.files ==> !Delayed(t.files[q])
    case Some(time) =>
      && (exists q :: q in t.files && Delayed(t.files[q]) && t.files[q].nextAttemptAt.value == time)
      && (forall q :: q in t.files && Delayed(t.files[q]) ==> time <= t.files[q].nextAttemptAt.value)
  }

  const SHORTEST_WAIT := 0.05
  const LONGEST_WAIT := 60.0

  /** How long a worker that found nothing sleeps at most. */
  function WaitSeconds(next: Option<real>, now: real): real {
    if next.None? then LONGEST_WAIT
    else
      var left := if next.value - now < LONGEST_WAIT then next.value - now else LONGEST_WAIT;
      if left < SHORTEST_WAIT then SHORTEST_WAIT else left
  }

  lemma {:induction false} NextRetryExists(t: Tables) returns (next: Option<real>)
    ensures IsNextRetry(t, next)
  {
    var due := set q | q in t.files && Delayed(t.files[q]);
    assert forall q :: q in t.files && Delayed(t.files[q]) ==> q in due;
    next := None;
    if due != {} {
      var first := EarliestOf(t, due);
      next := t.files[first].nextAttemptAt;
    }
  }

  lemma {:induction false} EarliestOf(t: Tables, due: set<string>) returns (first: string)
    requires due <= t.files.Keys && due != {} && forall q :: q in due ==> Delayed(t.files[q])
    ensures first in due && Delayed(t.files[first])
    ensures forall q :: q in due && Delayed(t.files[q]) ==> t.files[first].nextAttemptAt.value <= t.files[q].nextAttemptAt.value
    decreases |due|
  {
    var one :| one in due;
    var rest := due - {one};
    first := one;
    if rest != {} {
      var other := EarliestOf(t, rest);
      if t.files[other].nextAttemptAt.value < t.files[one].nextAttemptAt.value {
        first := other;
      }
    }
    forall q | q in due && Delayed(t.files[q])
      ensures t.files[first].nextAttemptAt.value <= t.files[q].nextAttemptAt.value
    {
      assert q == one || q in rest;
    }
  }

  function ClaimedRow(row: FileRow, now: real): FileRow {
    row.(status := Running, attempts := row.attempts + 1, leaseUntil := Some(now + LEASE_SECONDS), nextAttemptAt := None)
  }

  function JobOf(path: string, row: FileRow, now: real): Job {
    Job(path, row.id, row.attempts, row.attempts + 1, now + LEASE_SECONDS)
  }

  function ClaimPath(t: Tables, path: string, now: real): Tables
    requires path in t.files
  {
    t.(files := t.files[path := ClaimedRow(t.files[path], now)])
  }

  /** The fencing predicate: the row is still in the state this exact claim left it in. */
  predicate HoldsClaim(t: Tables, job: Job) {
    && job.path in t.files
    && var row := t.files[job.path];
       && row.id == job.id
       && row.status == Running
       && row.attempts == job.claimAttempt
       && row.leaseUntil == Some(job.claimLease)
  }

  function CapturedColumn(acl: AclRecord): Option<int> {
    if acl.capturedAt == Some(0) then None else acl.capturedAt
  }

  function PublishedRow(row: FileRow, pages: Option<nat>, acl: AclRecord): FileRow {
    row.(status := Ready, pageCount := pages, error := None, leaseUntil := None, nextAttemptAt := None,
         acl := Some(acl), aclCapturedAt := CapturedColumn(acl))
  }

  function Publish(cfg: Config, t: Tables, job: Job, rows: seq<ChunkRow>, pages: Option<nat>, acl: AclRecord): Tables {
    if !HoldsClaim(t, job) then t
    else t.(files := t.files[job.path := PublishedRow(t.files[job.path], pages, acl)],
            fts := Without(t.fts, job.path) + FtsRowsFor(cfg, job, rows))
  }

  function Pow2(n: nat): nat {
    if n == 0 then 1 else 2 * Pow2(n - 1)
  }

  function Backoff(attempts: nat): nat {
    if Pow2(attempts) < 60 then Pow2(attempts) else 60
  }

  function FailedRow(row: FileRow, job: Job, reason: string, retry: bool, now: real): FileRow {
    row.(status := if retry then Pending else Failed,
         error := Some(if |reason| <= 500 then reason else reason[..500]),
         leaseUntil := None,
         nextAttemptAt := if retry then Some(now + Backoff(job.attempts + 1) as real) else None)
  }

  function RecordFailure(t: Tables, job: Job, reason: string, retry: bool, now: real): Tables {
    if !HoldsClaim(t, job) then t
    else t.(files := t.files[job.path := FailedRow(t.files[job.path], job, reason, retry, now)])
  }

  function RecoveredRow(row: FileRow): FileRow {
    if row.status == Running then row.(status := Pending, leaseUntil := None) else row
  }

  function Recover(t: Tables): Tables {
    t.(files := map p | p in t.files :: RecoveredRow(t.files[p]))
  }

  predicate Queued(row: FileRow) {
    row.status == Pending || row.status == Running
  }

  predicate Idle(t: Tables) {
    forall p :: p in t.files ==> !Queued(t.files[p])
  }

  lemma {:induction false} FirstEligibleExists(t: Tables, keys: set<string>, now: real) returns (path: string)
    requires keys <= t.files.Keys
    requires exists q :: q in keys && Eligible(t.files[q], now)
    ensures path in keys && Eligible(t.files[path], now)
    ensures forall q :: q in keys && Eligible(t.files[q], now) ==> t.files[path].rowid <= t.files[q].rowid
    decreases |keys|
  {
    path :| path in keys && Eligible(t.files[path], now);
    var rest := keys - {path};
    if exists q :: q in rest && Eligible(t.files[q], now) {
      var best := FirstEligibleExists(t, rest, now);
      if t.files[best].rowid <= t.files[path].rowid {
        path := best;
      }
    }
  }

  /** What a transaction does when the database raises partway: `At(k)` is the k-th statement. */
  datatype Fault = NoFault | At(statement: nat)

  class LocalSearchIndex {
    const cfg: Config
    var files: map<string, FileRow>
    var fts: seq<FtsRow>
    var nextRowid: nat
    var wake: bool
    var available: bool
    var readonly: bool

    constructor (cfg: Config)
      ensures this.cfg == cfg && !available && !wake && !readonly
      ensures Contents() == Tables(map[], [], 0)
    {
      this.cfg := cfg;
      files, fts, nextRowid := map[], [], 0;
      wake, available, readonly := false, false, false;
    }

    function Contents(): Tables
      reads this
    {
      Tables(files, fts, nextRowid)
    }

    /** Opening the index returns every row an earlier process had claimed to the queue. */
    method Init()
      modifies this
      ensures available && !readonly && wake == old(wake)
      ensures Contents() == Recover(old(Contents()))
    {
      readonly := false;
      available := true;
      files := map p | p in files :: RecoveredRow(files[p]);
    }

    method EnqueueFile(f: FileInfo, onlyIfMissing: bool)
      modifies `files, `fts, `nextRowid
      ensures Contents() == EnqueueOne(cfg, old(Contents()), f, onlyIfMissing)
    {
      if onlyIfMissing {
        if f.path !in files {
          files, nextRowid := files[f.path := FreshRow(cfg, nextRowid, f)], nextRowid + 1;
        }
      } else {
        fts := Without(fts, f.path);
        if f.path in files {
          files := files[f.path := FreshRow(cfg, files[f.path].rowid, f)];
        } else {
          files, nextRowid := files[f.path := FreshRow(cfg, nextRowid, f)], nextRowid + 1;
        }
      }
    }

    /** One transaction: the files in order, then the sweep for overdue access lists. A raised
        statement rolls all of it back and sets no wake-up. */
    method Enqueue(batch: seq<FileInfo>, onlyIfMissing: bool, now: real, fault: Fault)
      returns (result: Result<(), string>)
      modifies this
      ensures unchanged(`available) && unchanged(`readonly)
      ensures !old(available) || batch == [] ==> result.Success? && Contents() == old(Contents()) && wake == old(wake)
      ensures old(available) && batch != [] && result.Success? ==>
                wake && !readonly && Contents() == EnqueueMany(cfg, old(Contents()), batch, onlyIfMissing, now)
      ensures result.Failure? ==> Contents() == old(Contents()) && wake == old(wake)
      ensures result.Failure? <==> old(available) && batch != [] && (readonly || (fault.At? && fault.statement <= |batch|))
    {
      hide EnqueueOne, RefreshRow;
      if !available || batch == [] {
        return Success(());
      }
      if readonly {
        return Failure("local index was opened read-only");
      }
      var files0, fts0, nextRowid0 := files, fts, nextRowid;
      ghost var start := Contents();
      var k := 0;
      while k < |batch|
        invariant 0 <= k <= |batch|
        invariant unchanged(`available) && unchanged(`readonly) && unchanged(`wake)
        invariant Contents() == EnqueueAll(cfg, start, batch[..k], onlyIfMissing)
        invariant fault.At? ==> k <= fault.statement
      {
        if fault == At(k) {
          files, fts, nextRowid := files0, fts0, nextRowid0;
          return Failure("database error");
        }
        assert batch[..k + 1][..k] == batch[..k];
        EnqueueFile(batch[k], onlyIfMissing);
        k := k + 1;
      }
      assert batch[..|batch|] == batch;
      if fault == At(|batch|) {
        files, fts, nextRowid := files0, fts0, nextRowid0;
        return Failure("database error");
      }
      files := map p | p in files :: RefreshRow(cfg, files[p], now);
      wake := true;
      result := Success(());
    }

    method Delete(paths: seq<string>, fault: Fault) returns (result: Result<(), string>)
      modifies this
      ensures unchanged(`available) && unchanged(`readonly) && unchanged(`wake)
      ensures result.Success? && old(available) ==> Contents() == DeleteAll(old(Contents()), paths)
      ensures result.Failure? || !old(available) ==> Contents() == old(Contents())
      ensures result.Failure? <==> old(available) && (readonly || (paths != [] && fault.At? && fault.statement <= |paths|))
    {
      if !available {
        return Success(());
      }
      if readonly {
        return Failure("local index was opened read-only");
      }
      if paths == [] {
        return Success(());
      }
      hide Without;
      var files0, fts0 := files, fts;
      ghost var start := Contents();
      var k := 0;
      while k < |paths|
        invariant 0 <= k <= |paths|
        invariant unchanged(`available) && unchanged(`readonly) && unchanged(`wake) && unchanged(`nextRowid)
        invariant Contents() == DeleteAll(start, paths[..k])
        invariant fault.At? ==> k <= fault.statement
      {
        if fault == At(k) {
          files, fts := files0, fts0;
          return Failure("database error");
        }
        assert paths[..k + 1][..k] == paths[..k];
        fts := Without(fts, paths[k]);
        files := files - {paths[k]};
        k := k + 1;
      }
      assert paths[..|paths|] == paths;
      if fault == At(|paths|) {
        files, fts := files0, fts0;
        return Failure("database error");
      }
      result := Success(());
    }

    /** Take the oldest runnable row, if there is one. */
    method Claim(now: real) returns (job: Option<Job>)
      modifies this
      ensures unchanged(`available) && unchanged(`readonly) && unchanged(`wake)
      ensures job.None? ==> NoneEligible(old(Contents()), now) && Contents() == old(Contents())
      ensures job.Some? ==>
                && FirstEligible(old(Contents()), job.value.path, now)
                && job.value == JobOf(job.value.path, old(files)[job.value.path], now)
                && Contents() == ClaimPath(old(Contents()), job.value.path, now)
                && HoldsClaim(Contents(), job.value)
    {
      if q :| q in files && Eligible(files[q], now) {
        ghost var first := FirstEligibleExists(Contents(), files.Keys, now);
        assert FirstEligible(Contents(), first, now);
        var path :| path in files && FirstEligible(Contents(), path, now);
        job := Some(JobOf(path, files[path], now));
        files := files[path := ClaimedRow(files[path], now)];
      } else {
        job := None;
      }
    }

    /** How long to sleep: until the earliest retry, within bounds that let no retry pass by more
        than the shortest wait. */
    method NextWaitSeconds(now: real) returns (seconds: real)
      ensures exists next :: IsNextRetry(Contents(), next) && seconds == WaitSeconds(next, now)
      ensures SHORTEST_WAIT <= seconds <= LONGEST_WAIT
      ensures forall q :: q in files && Delayed(files[q]) ==>
        now + seconds <= files[q].nextAttemptAt.value || seconds == SHORTEST_WAIT
    {
      var due := set q | q in files && Delayed(files[q]);
      var next: Option<real> := None;
      if due != {} {
        ghost var earliest := EarliestOf(Contents(), due);
        var first :| first in due &&
          forall q :: q in due && Delayed(files[q]) ==> files[first].nextAttemptAt.value <= files[q].nextAttemptAt.value;
        next := files[first].nextAttemptAt;
      }
      assert forall q :: q in files && Delayed(files[q]) ==> q in due;
      assert IsNextRetry(Contents(), next);
      seconds := WaitSeconds(next, now);
    }

    /** Commit a document's rows, unless the claim was superseded or the database raises. */
    method CommitText(job: Job, rows: seq<ChunkRow>, pages: Option<nat>, acl: AclRecord, fault: Fault)
      returns (result: Result<bool, string>)
      modifies this
      ensures unchanged(`available) && unchanged(`readonly) && unchanged(`wake)
      ensures result.Success? ==>
                && result.value == old(HoldsClaim(Contents(), job))
                && Contents() == Publish(cfg, old(Contents()), job, rows, pages, acl)
      ensures result.Failure? ==> fault.At? && Contents() == old(Contents())
    {
      if fault == At(0) {
        return Failure("database error");
      }
      if !HoldsClaim(Contents(), job) {
        return Success(false);
      }
      var fts0 := fts;
      fts := Without(fts, job.path);
      if fault == At(1) {
        fts := fts0;
        return Failure("database error");
      }
      fts := fts + FtsRowsFor(cfg, job, rows);
      if fault == At(2) {
        fts := fts0;
        return Failure("database error");
      }
      files := files[job.path := PublishedRow(files[job.path], pages, acl)];
      result := Success(true);
    }

    /** Report a failed job; only the holder of the claim changes anything or wakes the others. */
    method ReportFailure(job: Job, reason: string, retry: bool, now: real)
      modifies this
      ensures unchanged(`available) && unchanged(`readonly)
      ensures Contents() == RecordFailure(old(Contents()), job, reason, retry, now)
      ensures wake == (old(wake) || old(HoldsClaim(Contents(), job)))
    {
      if HoldsClaim(Contents(), job) {
        files := files[job.path := FailedRow(files[job.path], job, reason, retry, now)];
        wake := true;
      }
    }

    method QueueIsIdle() returns (idle: bool)
      ensures idle == Idle(Contents())
    {
      idle := forall p :: p in files ==> !Queued(files[p]);
    }
  }
}
