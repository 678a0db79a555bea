/** The local index as a system of interleaved steps: any number of workers, enqueuers, deletes,
    restarts and a clock. Each database transaction is one step, because all of them run under
    one lock; everything a worker does between two transactions is a separate step.

    A system also carries what an observer would have written down: the claim each path was
    last published from, the clock readings workers took, and counts of what ended each claim. */
module IndexSystem {
  import opened Wrappers
  import opened Extraction
  import opened NativeAcl
  import opened IndexTables

  /** Where a worker stands in its loop. */
  datatype Pc =
    | AtTop                       // about to clear the wake-up and claim
    | Claiming(now: real)         // cleared; has read the clock for its claim
    | Empty                       // its claim found nothing
    | Deciding(next: Option<real>)        // has read when the next retry is due
    | Waiting(since: real, until: real)   // asleep on the wake-up, with a deadline
    | Working(job: Job)           // fetching and extracting, outside any lock
    | Failing(job: Job, reason: string, retry: bool)
    | Signalling                  // has recorded a failure, about to set the wake-up
    | Stopped                     // an exception ended the task

  datatype Publication = Publication(job: Job, doc: Document)

  /** How the claims of a row ended since it was last enqueued or sent back for a refresh. */
  datatype Budget = Budget(claims: nat, retries: nat, expiries: nat, restarts: nat)

  const NO_CLAIMS := Budget(0, 0, 0, 0)

  datatype System = System(
    t: Tables,
    clock: real,
    wake: bool,
    workers: seq<Pc>,
    setters: nat,                 // enqueuers between commit and setting the wake-up
    published: map<string, Publication>,
    readings: map<string, set<real>>,  // the clock readings this process claimed each path on
    repeated: set<string>,        // paths this process claimed twice on one reading
    budgets: map<string, Budget>)

  datatype Step =
    | Tick(time: real)
    | EnqueueTx(batch: seq<FileInfo>, onlyIfMissing: bool)
    | SetWake
    | EnqueuerDies
    | DeleteTx(paths: seq<string>)
    | Restart(workerCount: nat)
    | Begin(w: nat)
    | ClaimTx(w: nat, path: string)
    | ClaimNothing(w: nat)
    | ReadNext(w: nat, next: Option<real>)
    | StartWaiting(w: nat)
    | StopWaiting(w: nat)
    | PublishTx(w: nat, doc: Document, acl: AclRecord)
    | JobFails(w: nat, reason: string, permanent: bool)
    | FailureTx(w: nat, now: real)
    | Signal(w: nat)
    | Dies(w: nat)

  function Workers(n: nat): seq<Pc> {
    seq(n, _ => AtTop)
  }

  function Start(n: nat, clock: real): System {
    System(Tables(map[], [], 0), clock, false, Workers(n), 0, map[], map[], {}, map[])
  }

  function WakeAll(workers: seq<Pc>): (woken: seq<Pc>)
    ensures |woken| == |workers|
    ensures forall k :: 0 <= k < |workers| ==> woken[k] == if workers[k].Waiting? then AtTop else workers[k]
  {
    seq(|workers|, k requires 0 <= k < |workers| => if workers[k].Waiting? then AtTop else workers[k])
  }

  ghost predicate HasText(cfg: Config, doc: Document) {
    DocumentRows(doc, cfg.maxTextChars) != []
  }

  function PagesOf(doc: Document): Option<nat> {
    if doc.Pdf? then Some(|doc.pages|) else None
  }

  ghost predicate HasWorker(s: System, w: nat) {
    w < |s.workers|
  }

  ghost predicate Enabled(cfg: Config, s: System, step: Step) {
    match step
    case Tick(_) => true
    case EnqueueTx(batch, _) => batch != []
    case SetWake => s.setters > 0
    case EnqueuerDies => s.setters > 0
    case DeleteTx(_) => true
    case Restart(n) => n > 0
    case Begin(w) => HasWorker(s, w) && s.workers[w].AtTop?
    case ClaimTx(w, path) => HasWorker(s, w) && s.workers[w].Claiming? && FirstEligible(s.t, path, s.workers[w].now)
    case ClaimNothing(w) => HasWorker(s, w) && s.workers[w].Claiming? && NoneEligible(s.t, s.workers[w].now)
    case ReadNext(w, next) => HasWorker(s, w) && s.workers[w].Empty? && IsNextRetry(s.t, next)
    case StartWaiting(w) => HasWorker(s, w) && s.workers[w].Deciding?
    case StopWaiting(w) => HasWorker(s, w) && s.workers[w].Waiting?
    case PublishTx(w, doc, _) => HasWorker(s, w) && s.workers[w].Working? && HasText(cfg, doc)
    case JobFails(w, _, _) => HasWorker(s, w) && s.workers[w].Working?
    case FailureTx(w, _) => HasWorker(s, w) && s.workers[w].Failing?
    case Signal(w) => HasWorker(s, w) && s.workers[w].Signalling?
    case Dies(w) => HasWorker(s, w) && (s.workers[w].Claiming? || s.workers[w].Empty? || s.workers[w].Failing?)
  }

  /** A row starts over when it is new, rescanned, or sent back for its access list. */
  ghost predicate StartsOver(cfg: Config, s: System, batch: seq<FileInfo>, onlyIfMissing: bool, path: string) {
    || path !in s.t.files
    || (!onlyIfMissing && Listed(batch, path))
    || AclDue(cfg, s.t.files[path], s.clock)
  }

  ghost predicate Listed(batch: seq<FileInfo>, path: string) {
    exists k :: 0 <= k < |batch| && batch[k].path == path
  }

  ghost function BudgetOf(s: System, path: string): Budget {
    if path in s.budgets then s.budgets[path] else NO_CLAIMS
  }

  ghost function ReadingsOf(s: System, path: string): set<real> {
    if path in s.readings then s.readings[path] else {}
  }

  ghost function Apply(cfg: Config, s: System, step: Step): System
    requires Enabled(cfg, s, step)
  {
    match step
    case Tick(time) => s.(clock := time)
    case EnqueueTx(batch, onlyIfMissing) =>
      var t := EnqueueMany(cfg, s.t, batch, onlyIfMissing, s.clock);
      s.(t := t, setters := s.setters + 1,
         budgets := map p | p in t.files :: if StartsOver(cfg, s, batch, onlyIfMissing, p) then NO_CLAIMS else BudgetOf(s, p))
    case SetWake => s.(wake := true, workers := WakeAll(s.workers), setters := s.setters - 1)
    case EnqueuerDies => s.(setters := s.setters - 1)
    case DeleteTx(paths) => s.(t := DeleteAll(s.t, paths))
    case Restart(n) =>
      s.(t := Recover(s.t), wake := false, workers := Workers(n), setters := 0, readings := map[], repeated := {},
         budgets := map p | p in s.t.files ::
           if s.t.files[p].status == Running then BudgetOf(s, p).(restarts := BudgetOf(s, p).restarts + 1) else BudgetOf(s, p))
    case Begin(w) =>
      s.(wake := false, workers := s.workers[w := Claiming(s.clock)])
    case ClaimTx(w, path) =>
      var now, row, b := s.workers[w].now, s.t.files[path], BudgetOf(s, path);
      s.(t := ClaimPath(s.t, path, now), workers := s.workers[w := Working(JobOf(path, row, now))],
         readings := s.readings[path := ReadingsOf(s, path) + {now}],
         repeated := if now in ReadingsOf(s, path) then s.repeated + {path} else s.repeated,
         budgets := s.budgets[path :=
           b.(claims := b.claims + 1, expiries := b.expiries + if row.status == Running then 1 else 0)])
    case ClaimNothing(w) => s.(workers := s.workers[w := Empty])
    case ReadNext(w, next) => s.(workers := s.workers[w := Deciding(next)])
    case StartWaiting(w) =>
      s.(workers := s.workers[w := if s.wake then AtTop
                                   else Waiting(s.clock, s.clock + WaitSeconds(s.workers[w].next, s.clock))])
    case StopWaiting(w) => s.(workers := s.workers[w := AtTop])
    case PublishTx(w, doc, acl) =>
      var job := s.workers[w].job;
      s.(t := Publish(cfg, s.t, job, DocumentRows(doc, cfg.maxTextChars), PagesOf(doc), acl),
         workers := s.workers[w := AtTop],
         published := if HoldsClaim(s.t, job) then s.published[job.path := Publication(job, doc)] else s.published)
    case JobFails(w, reason, permanent) =>
      var job := s.workers[w].job;
      s.(workers := s.workers[w := Failing(job, reason, !permanent && job.attempts + 1 < MAX_ATTEMPTS)])
    case FailureTx(w, now) =>
      var job, reason, retry := s.workers[w].job, s.workers[w].reason, s.workers[w].retry;
      var held := HoldsClaim(s.t, job);
      var b := BudgetOf(s, job.path);
      s.(t := RecordFailure(s.t, job, reason, retry, now),
         workers := s.workers[w := if held then Signalling else AtTop],
         budgets := if held && retry then s.budgets[job.path := b.(retries := b.retries + 1)] else s.budgets)
    case Signal(w) => s.(wake := true, workers := WakeAll(s.workers)[w := AtTop])
    case Dies(w) => s.(workers := s.workers[w := Stopped])
  }

  // ----- runs -----

  ghost predicate ValidRun(cfg: Config, s: System, steps: seq<Step>)
    decreases |steps|
  {
    steps == [] || (Enabled(cfg, s, steps[0]) && ValidRun(cfg, Apply(cfg, s, steps[0]), steps[1..]))
  }

  ghost function After(cfg: Config, s: System, steps: seq<Step>): System
    requires ValidRun(cfg, s, steps)
    decreases |steps|
  {
    if steps == [] then s else After(cfg, Apply(cfg, s, steps[0]), steps[1..])
  }

  ghost predicate Reachable(cfg: Config, s: System) {
    exists n: nat, clock: real, steps: seq<Step> ::
      n > 0 && ValidRun(cfg, Start(n, clock), steps) && s == After(cfg, Start(n, clock), steps)
  }

  // ----- what the table transactions do to one path -----

  /** How a batch leaves one path: untouched, or replaced by a fresh row from the batch. */
  ghost predicate EnqueuedAt(cfg: Config, t: Tables, batch: seq<FileInfo>, onlyIfMissing: bool, path: string, r: Tables) {
    if path in t.files && (onlyIfMissing || !Listed(batch, path)) then
      path in r.files && r.files[path] == t.files[path] && RowsAt(r.fts, path) == RowsAt(t.fts, path)
    else if Listed(batch, path) then
      && path in r.files
      && FromBatch(cfg, batch, path, r.files[path])
      && RowsAt(r.fts, path) == if onlyIfMissing then RowsAt(t.fts, path) else []
    else path !in r.files && RowsAt(r.fts, path) == RowsAt(t.fts, path)
  }

  ghost predicate FromBatch(cfg: Config, batch: seq<FileInfo>, path: string, row: FileRow) {
    exists k :: 0 <= k < |batch| && batch[k].path == path && row == FreshRow(cfg, row.rowid, batch[k])
  }

  lemma {:induction false} EnqueueOneAt(cfg: Config, t: Tables, f: FileInfo, onlyIfMissing: bool, path: string)
    ensures var r := EnqueueOne(cfg, t, f, onlyIfMissing);
      && (f.path != path || (onlyIfMissing && path in t.files) ==>
            && (path in r.files <==> path in t.files)
            && (path in t.files ==> r.files[path] == t.files[path])
            && RowsAt(r.fts, path) == RowsAt(t.fts, path))
      && (f.path == path && !(onlyIfMissing && path in t.files) ==>
            && path in r.files && r.files[path] == FreshRow(cfg, r.files[path].rowid, f)
            && RowsAt(r.fts, path) == if onlyIfMissing then RowsAt(t.fts, path) else [])
  {
    RowsAtWithout(t.fts, f.path, path);
    hide RowsAt, Without, IdentityOf, InitialStatus;
  }

  lemma ListedLast(batch: seq<FileInfo>, path: string)
    requires batch != []
    ensures Listed(batch, path) <==> Listed(batch[..|batch| - 1], path) || batch[|batch| - 1].path == path
  {
    var init := batch[..|batch| - 1];
    if Listed(init, path) {
      var k :| 0 <= k < |init| && init[k].path == path;
      assert batch[k].path == path;
    }
    if Listed(batch, path) {
      var k :| 0 <= k < |batch| && batch[k].path == path;
      assert k < |init| ==> init[k].path == path;
    }
  }

  lemma {:induction false} EnqueueAllAt(cfg: Config, t: Tables, batch: seq<FileInfo>, onlyIfMissing: bool, path: string)
    ensures EnqueuedAt(cfg, t, batch, onlyIfMissing, path, EnqueueAll(cfg, t, batch, onlyIfMissing))
  {
    if batch != [] {
      hide FreshRow, RowsAt, EnqueueOne, Listed;
      var init, f := batch[..|batch| - 1], batch[|batch| - 1];
      EnqueueAllAt(cfg, t, init, onlyIfMissing, path);
      ListedLast(batch, path);
      var mid := EnqueueAll(cfg, t, init, onlyIfMissing);
      EnqueueOneAt(cfg, mid, f, onlyIfMissing, path);
      var r := EnqueueOne(cfg, mid, f, onlyIfMissing);
      if path in mid.files && FromBatch(cfg, init, path, mid.files[path]) {
        var k :| 0 <= k < |init| && init[k].path == path && mid.files[path] == FreshRow(cfg, mid.files[path].rowid, init[k]);
        assert batch[k] == init[k];
      }
    } else {
      assert !Listed(batch, path);
    }
  }

  lemma {:induction false} DeleteAllAt(t: Tables, paths: seq<string>, path: string)
    ensures var r := DeleteAll(t, paths);
            && (path in paths ==> path !in r.files && RowsAt(r.fts, path) == [])
            && (path !in paths ==>
                  && (path in r.files <==> path in t.files)
                  && (path in t.files ==> r.files[path] == t.files[path])
                  && RowsAt(r.fts, path) == RowsAt(t.fts, path))
  {
    if paths != [] {
      hide RowsAt, Without;
      var init := paths[..|paths| - 1];
      DeleteAllAt(t, init, path);
      RowsAtWithout(DeleteAll(t, init).fts, paths[|paths| - 1], path);
      assert paths == init + [paths[|paths| - 1]];
    }
  }

  lemma {:induction false} PublishAt(cfg: Config, t: Tables, job: Job, rows: seq<ChunkRow>, pages: Option<nat>,
                                     acl: AclRecord, path: string)
    ensures var r := Publish(cfg, t, job, rows, pages, acl);
            && (path in r.files <==> path in t.files)
            && (path != job.path || !HoldsClaim(t, job) ==>
                  && (path in t.files ==> r.files[path] == t.files[path])
                  && RowsAt(r.fts, path) == RowsAt(t.fts, path))
            && (path == job.path && HoldsClaim(t, job) ==>
                  && r.files[path] == PublishedRow(t.files[path], pages, acl)
                  && RowsAt(r.fts, path) == FtsRowsFor(cfg, job, rows))
  {
    hide RowsAt, Without;
    var added := FtsRowsFor(cfg, job, rows);
    RowsAtWithout(t.fts, job.path, path);
    RowsAtAppend(Without(t.fts, job.path), added, path);
    RowsAtOfOnePath(added, job.path, path);
  }
}
