/** Bounded retries, and a queue that drains: each row carries a finite amount of work, which
    only shrinks while nobody enqueues, deletes or restarts. */
module IndexDrain {
  import opened Wrappers
  import opened Extraction
  import opened NativeAcl
  import opened IndexTables
  import opened IndexSystem
  import opened IndexFencing
  import opened IndexFreshness

  // ----- retry budget -----

  ghost predicate JobsConsistent(s: System) {
    forall w :: 0 <= w < |s.workers| ==>
      && (JobHeld(s, w).Some? ==> JobHeld(s, w).value.claimAttempt == JobHeld(s, w).value.attempts + 1)
      && (s.workers[w].Failing? && s.workers[w].retry ==> s.workers[w].job.claimAttempt < MAX_ATTEMPTS)
  }

  /** The stored attempt count is the number of claims, and each claim but the last ended in a
      retry, an expired lease or a restart. */
  ghost predicate BudgetAt(s: System, path: string) {
    path in s.t.files ==>
      var row, b := s.t.files[path], BudgetOf(s, path);
      && row.attempts == b.claims
      && b.retries < MAX_ATTEMPTS
      && (row.status == Pending ==> b.claims == b.retries + b.expiries + b.restarts)
      && (row.status == Running ==>
            && row.leaseUntil.Some? && row.nextAttemptAt.None?
            && b.claims == b.retries + b.expiries + b.restarts + 1)
      && b.claims <= b.retries + b.expiries + b.restarts + 1
  }

  lemma JobsStep(cfg: Config, s: System, step: Step)
    requires Enabled(cfg, s, step) && JobsConsistent(s)
    ensures JobsConsistent(Apply(cfg, s, step))
  {
    hide EnqueueMany, DeleteAll, Recover, ClaimPath, Publish, RecordFailure, HoldsClaim, BudgetOf, StartsOver, FirstEligible,
         NoneEligible, HasText, DocumentRows, PagesOf;
    var s' := Apply(cfg, s, step);
    forall w | 0 <= w < |s'.workers|
      ensures && (JobHeld(s', w).Some? ==> JobHeld(s', w).value.claimAttempt == JobHeld(s', w).value.attempts + 1)
              && (s'.workers[w].Failing? && s'.workers[w].retry ==> s'.workers[w].job.claimAttempt < MAX_ATTEMPTS)
    {
      if w < |s.workers| && s'.workers[w] == s.workers[w] {
        assert JobHeld(s', w) == JobHeld(s, w);
      } else if step.JobFails? {
        assert JobHeld(s', w) == JobHeld(s, w);
      }
    }
  }

  lemma BudgetAfterEnqueue(cfg: Config, s: System, batch: seq<FileInfo>, onlyIfMissing: bool, path: string)
    requires batch != [] && BudgetAt(s, path)
    ensures BudgetAt(Apply(cfg, s, EnqueueTx(batch, onlyIfMissing)), path)
  {
    hide RowsAt, EnqueueAll, Listed, FreshRow;
    EnqueueAllAt(cfg, s.t, batch, onlyIfMissing, path);
    var r := EnqueueAll(cfg, s.t, batch, onlyIfMissing);
    if path in r.files && FromBatch(cfg, batch, path, r.files[path]) {
      var k :| 0 <= k < |batch| && batch[k].path == path && r.files[path] == FreshRow(cfg, r.files[path].rowid, batch[k]);
      FreshRowIsNew(cfg, r.files[path].rowid, batch[k]);
    }
  }

  lemma BudgetAfterFailure(cfg: Config, s: System, w: nat, now: real, path: string)
    requires Enabled(cfg, s, FailureTx(w, now)) && JobsConsistent(s) && BudgetAt(s, path)
    ensures BudgetAt(Apply(cfg, s, FailureTx(w, now)), path)
  {
    hide Backoff;
    assert JobHeld(s, w).Some?;
  }

  lemma BudgetStep(cfg: Config, s: System, step: Step, path: string)
    requires Enabled(cfg, s, step) && JobsConsistent(s) && BudgetAt(s, path)
    ensures BudgetAt(Apply(cfg, s, step), path)
  {
    hide RowsAt, Without, FtsRowsFor, DocumentRows, HasText, JobsConsistent, WaitSeconds, IsNextRetry, NoneEligible,
         ReadingsOf, Backoff, Workers, WakeAll;
    match step {
      case EnqueueTx(batch, onlyIfMissing) => BudgetAfterEnqueue(cfg, s, batch, onlyIfMissing, path);
      case FailureTx(w, now) => BudgetAfterFailure(cfg, s, w, now, path);
      case DeleteTx(paths) =>
        hide DeleteAll;
        DeleteAllAt(s.t, paths, path);
      case _ =>
    }
  }

  lemma {:induction false} BudgetRun(cfg: Config, s: System, steps: seq<Step>, path: string)
    requires ValidRun(cfg, s, steps) && JobsConsistent(s) && BudgetAt(s, path)
    ensures JobsConsistent(After(cfg, s, steps)) && BudgetAt(After(cfg, s, steps), path)
    decreases |steps|
  {
    hide Enabled, Apply, BudgetAt, JobsConsistent;
    if steps != [] {
      JobsStep(cfg, s, steps[0]);
      BudgetStep(cfg, s, steps[0], path);
      BudgetRun(cfg, Apply(cfg, s, steps[0]), steps[1..], path);
    }
  }

  /** Per enqueue or refresh, a row is claimed at most MAX_ATTEMPTS times, not counting claims
      that a lapsed lease or a restart took away. */
  lemma ClaimsAreBounded(cfg: Config, s: System, path: string)
    requires Reachable(cfg, s) && path in s.t.files
    ensures var b := BudgetOf(s, path);
      && s.t.files[path].attempts == b.claims
      && b.claims <= MAX_ATTEMPTS + b.expiries + b.restarts
  {
    var n: nat, clock, steps: seq<Step> :|
      n > 0 && ValidRun(cfg, Start(n, clock), steps) && s == After(cfg, Start(n, clock), steps);
    BudgetRun(cfg, Start(n, clock), steps, path);
  }

  // ----- the measure -----

  /** Steps a row still has ahead of it: two per possible claim, one less once claimed. */
  ghost function RowWork(row: FileRow): nat {
    match row.status
    case Pending => if row.attempts + 1 < MAX_ATTEMPTS then 2 * (MAX_ATTEMPTS - row.attempts) else 2
    case Running => if row.attempts < MAX_ATTEMPTS then 2 * (MAX_ATTEMPTS - row.attempts) + 1 else 1
    case _ => 0
  }

  ghost function WorkOf(files: map<string, FileRow>): nat {
    if files == map[] then 0
    else
      var p :| p in files;
      RowWork(files[p]) + WorkOf(files - {p})
  }

  lemma {:induction false} WorkSplit(files: map<string, FileRow>, q: string)
    requires q in files
    ensures WorkOf(files) == RowWork(files[q]) + WorkOf(files - {q})
    decreases |files|
  {
    var p :| p in files && WorkOf(files) == RowWork(files[p]) + WorkOf(files - {p});
    if p != q {
      WorkSplit(files - {p}, q);
      WorkSplit(files - {q}, p);
      assert files - {p} - {q} == files - {q} - {p};
    }
  }

  lemma WorkUpdate(files: map<string, FileRow>, q: string, row: FileRow)
    requires q in files
    ensures WorkOf(files[q := row]) + RowWork(files[q]) == WorkOf(files) + RowWork(row)
  {
    WorkSplit(files, q);
    WorkSplit(files[q := row], q);
    assert files[q := row] - {q} == files - {q};
  }

  /** The exit condition of waiting for an idle queue is exactly that no work is left. */
  lemma {:induction false} IdleIffNoWork(files: map<string, FileRow>)
    ensures WorkOf(files) == 0 <==> forall p :: p in files ==> !Queued(files[p])
    decreases |files|
  {
    if files != map[] {
      var p :| p in files && WorkOf(files) == RowWork(files[p]) + WorkOf(files - {p});
      var rest := files - {p};
      IdleIffNoWork(rest);
      assert forall q :: q in rest ==> rest[q] == files[q];
      assert forall q :: q in files ==> q == p || q in rest;
      assert RowWork(files[p]) == 0 <==> !Queued(files[p]);
    }
  }

  /** Nobody adds, removes or restarts anything. */
  predicate Quiescent(step: Step) {
    !step.EnqueueTx? && !step.DeleteTx? && !step.Restart?
  }

  /** The steps that get somewhere: a claim of a pending row, an accepted publication, an
      accepted failure report. */
  ghost predicate Effective(s: System, step: Step) {
    match step
    case ClaimTx(_, path) => path in s.t.files && s.t.files[path].status == Pending
    case PublishTx(w, _, _) => JobHeld(s, w).Some? && HoldsClaim(s.t, JobHeld(s, w).value)
    case FailureTx(w, _) => JobHeld(s, w).Some? && HoldsClaim(s.t, JobHeld(s, w).value)
    case _ => false
  }

  lemma WorkShrinks(cfg: Config, s: System, step: Step)
    requires Enabled(cfg, s, step) && JobsConsistent(s) && Quiescent(step)
    ensures var before, after := WorkOf(s.t.files), WorkOf(Apply(cfg, s, step).t.files);
      after + (if Effective(s, step) then 1 else 0) <= before
  {
    hide RowsAt, Without, FtsRowsFor, DocumentRows, HasText, Backoff, BudgetOf, WorkOf;
    match step {
      case ClaimTx(w, path) =>
        WorkUpdate(s.t.files, path, ClaimedRow(s.t.files[path], s.workers[w].now));
      case PublishTx(w, doc, acl) =>
        var job := s.workers[w].job;
        if HoldsClaim(s.t, job) {
          WorkUpdate(s.t.files, job.path, PublishedRow(s.t.files[job.path], PagesOf(doc), acl));
        }
      case FailureTx(w, now) =>
        var pc := s.workers[w];
        if HoldsClaim(s.t, pc.job) {
          assert JobHeld(s, w).Some?;
          WorkUpdate(s.t.files, pc.job.path, FailedRow(s.t.files[pc.job.path], pc.job, pc.reason, pc.retry, now));
        }
      case _ =>
    }
  }

  ghost function EffectiveSteps(cfg: Config, s: System, steps: seq<Step>): nat
    requires ValidRun(cfg, s, steps)
    decreases |steps|
  {
    if steps == [] then 0
    else (if Effective(s, steps[0]) then 1 else 0) + EffectiveSteps(cfg, Apply(cfg, s, steps[0]), steps[1..])
  }

  ghost predicate AllQuiescent(steps: seq<Step>) {
    forall k :: 0 <= k < |steps| ==> Quiescent(steps[k])
  }

  /** However long a quiescent run is, the steps that get somewhere are paid for by the work
      that was there at its start. */
  lemma {:induction false} QuiescentRunBounded(cfg: Config, s: System, steps: seq<Step>)
    requires ValidRun(cfg, s, steps) && JobsConsistent(s) && AllQuiescent(steps)
    ensures EffectiveSteps(cfg, s, steps) + WorkOf(After(cfg, s, steps).t.files) <= WorkOf(s.t.files)
    decreases |steps|
  {
    hide Enabled, Apply, JobsConsistent, Quiescent, Effective, WorkOf;
    if steps != [] {
      JobsStep(cfg, s, steps[0]);
      WorkShrinks(cfg, s, steps[0]);
      assert AllQuiescent(steps[1..]) by {
        assert forall k :: 0 <= k < |steps[1..]| ==> steps[1..][k] == steps[k + 1];
      }
      QuiescentRunBounded(cfg, Apply(cfg, s, steps[0]), steps[1..]);
    }
  }

  // ----- what reports and restarts do to a row -----

  ghost predicate Settled(s: System) {
    JobsConsistent(s) && forall p :: BudgetAt(s, p)
  }

  lemma SettledInReach(cfg: Config, s: System)
    requires Reachable(cfg, s)
    ensures Settled(s)
  {
    var n: nat, clock, steps: seq<Step> :|
      n > 0 && ValidRun(cfg, Start(n, clock), steps) && s == After(cfg, Start(n, clock), steps);
    BudgetRun(cfg, Start(n, clock), steps, "");
    forall p
      ensures BudgetAt(s, p)
    {
      BudgetRun(cfg, Start(n, clock), steps, p);
    }
  }

  /** A report by the holder of a claim puts the row back for another attempt exactly when the
      failure may pass and attempts are left, and otherwise ends it in error. A failure at the
      attempt bound is the last. */
  lemma ReportEndsOrRetries(cfg: Config, s: System, w: nat, reason: string, permanent: bool, now: real)
    requires w < |s.workers| && s.workers[w].Working? && HoldsClaim(s.t, s.workers[w].job) && JobsConsistent(s)
    ensures var job, failed := s.workers[w].job, Apply(cfg, s, JobFails(w, reason, permanent));
      && Enabled(cfg, failed, FailureTx(w, now))
      && var row := Apply(cfg, failed, FailureTx(w, now)).t.files[job.path];
         && (!permanent && job.claimAttempt < MAX_ATTEMPTS ==>
               row.status == Pending && row.nextAttemptAt == Some(now + Backoff(job.claimAttempt) as real))
         && (permanent || job.claimAttempt >= MAX_ATTEMPTS ==> row.status == Failed)
  {
    hide Backoff;
    assert JobHeld(s, w).Some?;
  }

  /** A restart leaves no row claimed: what was claimed can run at once, with its attempts
      counted, and nothing else about any row or any text changes. */
  lemma RestartRequeues(cfg: Config, s: System, n: nat)
    requires Reachable(cfg, s) && n > 0
    ensures var t, r := s.t, Apply(cfg, s, Restart(n)).t;
      && r.fts == t.fts && r.files.Keys == t.files.Keys
      && forall p :: p in t.files ==>
           && r.files[p].status != Running
           && (t.files[p].status == Running ==>
                 r.files[p] == t.files[p].(status := Pending, leaseUntil := None) && forall now :: Eligible(r.files[p], now))
           && (t.files[p].status != Running ==> r.files[p] == t.files[p])
  {
    SettledInReach(cfg, s);
    hide BudgetOf;
    forall p | p in s.t.files
      ensures s.t.files[p].status == Running ==> s.t.files[p].nextAttemptAt.None?
    {
      assert BudgetAt(s, p);
    }
    hide BudgetAt;
  }

  // ----- the queue drains, however its jobs turn out -----

  /** How a claimed job turns out: extracted to a document, or an exception. */
  datatype Ending = Extracted(doc: Document, acl: AclRecord) | Raised(reason: string, permanent: bool)

  /** Decides every job's ending, from all there is to know when it ends. */
  type Oracle = (System, nat) -> Ending

  const NO_TEXT := "no_extractable_text"

  /** A document without text is a permanent failure. */
  ghost function EndingStep(cfg: Config, s: System, w: nat, oracle: Oracle): Step {
    match oracle(s, w)
    case Extracted(doc, acl) => if HasText(cfg, doc) then PublishTx(w, doc, acl) else JobFails(w, NO_TEXT, true)
    case Raised(reason, permanent) => JobFails(w, reason, permanent)
  }

  ghost predicate Obeys(cfg: Config, s: System, step: Step, oracle: Oracle) {
    match step
    case PublishTx(w, _, _) => step == EndingStep(cfg, s, w, oracle)
    case JobFails(w, _, _) => step == EndingStep(cfg, s, w, oracle)
    case _ => true
  }

  /** Rows stay, those not in the queue as they were, and none becomes unsupported. */
  ghost predicate RowsKept(before: Tables, after: Tables) {
    && after.files.Keys == before.files.Keys
    && forall p :: p in before.files ==>
         if Queued(before.files[p]) then after.files[p].status != Unsupported else after.files[p] == before.files[p]
  }

  lemma RowsKeptStep(cfg: Config, s: System, step: Step)
    requires Enabled(cfg, s, step) && Quiescent(step)
    ensures RowsKept(s.t, Apply(cfg, s, step).t)
  {
    hide RowsAt, Without, FtsRowsFor, DocumentRows, HasText, Backoff, BudgetOf, ReadingsOf;
  }

  lemma RowsKeptThen(a: Tables, b: Tables, c: Tables)
    requires RowsKept(a, b) && RowsKept(b, c)
    ensures RowsKept(a, c)
  {}

  /** A quiescent continuation in which every job ends as the oracle says. */
  ghost predicate Guided(cfg: Config, s: System, steps: seq<Step>, oracle: Oracle)
    requires ValidRun(cfg, s, steps)
    decreases |steps|
  {
    steps == [] ||
    (Quiescent(steps[0]) && Obeys(cfg, s, steps[0], oracle) && Guided(cfg, Apply(cfg, s, steps[0]), steps[1..], oracle))
  }

  /** A guided continuation that leaves worker w at the top of its loop. */
  ghost predicate Leads(cfg: Config, s: System, steps: seq<Step>, w: nat, oracle: Oracle) {
    && ValidRun(cfg, s, steps)
    && Guided(cfg, s, steps, oracle)
    && Settled(After(cfg, s, steps))
    && RowsKept(s.t, After(cfg, s, steps).t)
    && w < |After(cfg, s, steps).workers|
    && After(cfg, s, steps).workers[w] == AtTop
  }

  lemma {:induction false} StepThen(cfg: Config, s: System, step: Step, rest: seq<Step>, w: nat, oracle: Oracle)
    requires Enabled(cfg, s, step) && Quiescent(step) && Settled(s) && Obeys(cfg, s, step, oracle)
    requires Leads(cfg, Apply(cfg, s, step), rest, w, oracle)
    ensures Leads(cfg, s, [step] + rest, w, oracle)
    ensures After(cfg, s, [step] + rest) == After(cfg, Apply(cfg, s, step), rest)
    ensures WorkOf(Apply(cfg, s, step).t.files) + (if Effective(s, step) then 1 else 0) <= WorkOf(s.t.files)
  {
    hide Enabled, Apply, Settled, Effective, WorkOf, Quiescent, Obeys, RowsKept;
    assert ([step] + rest)[1..] == rest;
    WorkShrinks(cfg, s, step) by { assert JobsConsistent(s) by { SettledParts(s); } }
    RowsKeptStep(cfg, s, step);
    RowsKeptThen(s.t, Apply(cfg, s, step).t, After(cfg, Apply(cfg, s, step), rest).t);
  }

  lemma SettledParts(s: System)
    requires Settled(s)
    ensures JobsConsistent(s)
  {}

  lemma SettledStep(cfg: Config, s: System, step: Step)
    requires Enabled(cfg, s, step) && Settled(s)
    ensures Settled(Apply(cfg, s, step))
  {
    hide Enabled, Apply, JobsConsistent, BudgetAt;
    JobsStep(cfg, s, step);
    forall p
      ensures BudgetAt(Apply(cfg, s, step), p)
    {
      BudgetStep(cfg, s, step, p);
    }
  }

  function Rank(pc: Pc): nat {
    match pc
    case AtTop => 0
    case Signalling => 1
    case Waiting(_, _) => 1
    case Deciding(_) => 2
    case Empty => 3
    case Failing(_, _, _) => 2
    case Working(_) => 3
    case Claiming(_) => 4
    case Stopped => 5
  }

  lemma NextOwnStep(cfg: Config, s: System, w: nat, oracle: Oracle) returns (step: Step)
    requires w < |s.workers| && !s.workers[w].Stopped? && !s.workers[w].AtTop?
    ensures Enabled(cfg, s, step) && Quiescent(step) && Obeys(cfg, s, step, oracle)
    ensures |Apply(cfg, s, step).workers| == |s.workers| && Rank(Apply(cfg, s, step).workers[w]) < Rank(s.workers[w])
  {
    match s.workers[w] {
      case Signalling => step := Signal(w);
      case Waiting(_, _) => step := StopWaiting(w);
      case Deciding(_) => step := StartWaiting(w);
      case Empty =>
        var next := NextRetryExists(s.t);
        step := ReadNext(w, next);
      case Failing(_, _, _) => step := FailureTx(w, s.clock);
      case Working(_) => step := EndingStep(cfg, s, w, oracle);
      case Claiming(now) =>
        if q :| q in s.t.files && Eligible(s.t.files[q], now) {
          var path := FirstEligibleExists(s.t, s.t.files.Keys, now);
          step := ClaimTx(w, path);
        } else {
          step := ClaimNothing(w);
        }
    }
  }

  lemma {:induction false} NothingLeads(cfg: Config, s: System, w: nat, oracle: Oracle)
    requires Settled(s) && w < |s.workers| && s.workers[w] == AtTop
    ensures Leads(cfg, s, [], w, oracle) && After(cfg, s, []) == s
  {
    hide Settled;
  }

  lemma {:induction false} FinishCurrent(cfg: Config, s: System, w: nat, oracle: Oracle) returns (steps: seq<Step>)
    requires Settled(s) && w < |s.workers| && !s.workers[w].Stopped?
    ensures Leads(cfg, s, steps, w, oracle)
    ensures WorkOf(After(cfg, s, steps).t.files) <= WorkOf(s.t.files)
    decreases Rank(s.workers[w])
  {
    hide Enabled, Apply, Settled, Effective, WorkOf, Quiescent, Obeys, Leads, After, ValidRun;
    if s.workers[w] == AtTop {
      NothingLeads(cfg, s, w, oracle);
      steps := [];
    } else {
      var step := NextOwnStep(cfg, s, w, oracle);
      SettledStep(cfg, s, step);
      NotStopped(cfg, s, step, w);
      var rest := FinishCurrent(cfg, Apply(cfg, s, step), w, oracle);
      steps := [step] + rest;
      StepThen(cfg, s, step, rest, w, oracle);
      LeadsParts(cfg, Apply(cfg, s, step), rest, w, oracle);
      LeadsParts(cfg, s, steps, w, oracle);
    }
  }

  lemma {:induction false} LeadsParts(cfg: Config, s: System, steps: seq<Step>, w: nat, oracle: Oracle)
    requires Leads(cfg, s, steps, w, oracle)
    ensures ValidRun(cfg, s, steps) && Settled(After(cfg, s, steps))
    ensures w < |After(cfg, s, steps).workers| && After(cfg, s, steps).workers[w] == AtTop
  {}

  lemma NotStopped(cfg: Config, s: System, step: Step, w: nat)
    requires Enabled(cfg, s, step) && w < |Apply(cfg, s, step).workers|
    requires Rank(Apply(cfg, s, step).workers[w]) < 5
    ensures !Apply(cfg, s, step).workers[w].Stopped?
  {
    hide Enabled, Apply;
  }

  /** A clock reading at which every queued row can be claimed. */
  lemma {:induction false} LateEnough(files: map<string, FileRow>) returns (time: real)
    ensures forall p :: p in files ==>
      && (files[p].nextAttemptAt.Some? ==> files[p].nextAttemptAt.value <= time)
      && (files[p].leaseUntil.Some? ==> files[p].leaseUntil.value < time)
    decreases |files|
  {
    time := 0.0;
    if files != map[] {
      var p :| p in files;
      var rest := files - {p};
      time := LateEnough(rest);
      assert forall q :: q in files && q != p ==> q in rest && rest[q] == files[q];
      if files[p].nextAttemptAt.Some? && time < files[p].nextAttemptAt.value { time := files[p].nextAttemptAt.value; }
      if files[p].leaseUntil.Some? && time <= files[p].leaseUntil.value { time := files[p].leaseUntil.value + 1.0; }
    }
  }

  /** One claim, whatever comes of it, leaves less work. */
  lemma ClaimThenFinish(cfg: Config, s: System, w: nat, oracle: Oracle) returns (steps: seq<Step>)
    requires Settled(s) && w < |s.workers| && s.workers[w].Claiming?
    requires exists q :: q in s.t.files && Eligible(s.t.files[q], s.workers[w].now)
    ensures Leads(cfg, s, steps, w, oracle)
    ensures WorkOf(After(cfg, s, steps).t.files) < WorkOf(s.t.files)
  {
    var path := FirstEligibleExists(s.t, s.t.files.Keys, s.workers[w].now);
    var claim := ClaimTx(w, path);
    SettledStep(cfg, s, claim);
    var s1 := Apply(cfg, s, claim);
    assert HoldsClaim(s1.t, s1.workers[w].job);
    hide Enabled, Apply, Settled, Effective, WorkOf, Quiescent, HoldsClaim, Leads, After, ValidRun;
    var rest := EndHeldJob(cfg, s1, w, oracle);
    LeadsParts(cfg, s1, rest, w, oracle);
    StepThen(cfg, s, claim, rest, w, oracle);
    steps := [claim] + rest;
    LeadsParts(cfg, s, steps, w, oracle);
  }

  lemma EndHeldJob(cfg: Config, s: System, w: nat, oracle: Oracle) returns (steps: seq<Step>)
    requires Settled(s) && w < |s.workers| && s.workers[w].Working? && HoldsClaim(s.t, s.workers[w].job)
    ensures Leads(cfg, s, steps, w, oracle)
    ensures WorkOf(After(cfg, s, steps).t.files) < WorkOf(s.t.files)
  {
    hide Settled, Leads, After, ValidRun, WorkOf, HasText, DocumentRows, RecordFailure, Publish;
    var step := EndingStep(cfg, s, w, oracle);
    SettledStep(cfg, s, step);
    var s1 := Apply(cfg, s, step);
    if step.PublishTx? {
      assert Effective(s, step) && !s1.workers[w].Stopped?;
      hide Enabled, Apply, Effective, Quiescent, Obeys;
      var rest := FinishCurrent(cfg, s1, w, oracle);
      LeadsParts(cfg, s1, rest, w, oracle);
      StepThen(cfg, s, step, rest, w, oracle);
      steps := [step] + rest;
    } else {
      var report := FailureTx(w, s.clock);
      assert Effective(s1, report);
      SettledStep(cfg, s1, report);
      var s2 := Apply(cfg, s1, report);
      assert !s2.workers[w].Stopped?;
      hide Enabled, Apply, Effective, Quiescent;
      var rest := FinishCurrent(cfg, s2, w, oracle);
      LeadsParts(cfg, s2, rest, w, oracle);
      StepThen(cfg, s1, report, rest, w, oracle);
      LeadsParts(cfg, s1, [report] + rest, w, oracle);
      StepThen(cfg, s, step, [report] + rest, w, oracle);
      steps := [step] + ([report] + rest);
    }
    LeadsParts(cfg, s, steps, w, oracle);
  }

  lemma OneMoreDone(cfg: Config, s: System, w: nat, oracle: Oracle) returns (steps: seq<Step>)
    requires Settled(s) && w < |s.workers| && s.workers[w] == AtTop && !Idle(s.t)
    ensures Leads(cfg, s, steps, w, oracle)
    ensures WorkOf(After(cfg, s, steps).t.files) < WorkOf(s.t.files)
  {
    hide Leads, After, ValidRun;
    var time := LateEnough(s.t.files);
    var p :| p in s.t.files && Queued(s.t.files[p]);
    assert Eligible(s.t.files[p], time) by { assert BudgetAt(s, p); }
    var tick := Tick(time);
    SettledStep(cfg, s, tick);
    var s1 := Apply(cfg, s, tick);
    var begin := Begin(w);
    SettledStep(cfg, s1, begin);
    var s2 := Apply(cfg, s1, begin);
    assert s2.t == s.t && s2.workers[w] == Claiming(time) && w < |s2.workers|;
    assert Quiescent(tick) && Quiescent(begin) && Obeys(cfg, s, tick, oracle) && Obeys(cfg, s1, begin, oracle);
    hide Enabled, Apply, Settled, Effective, WorkOf, Quiescent, Obeys, Eligible;
    var rest := ClaimThenFinish(cfg, s2, w, oracle);
    LeadsParts(cfg, s2, rest, w, oracle);
    StepThen(cfg, s1, begin, rest, w, oracle);
    LeadsParts(cfg, s1, [begin] + rest, w, oracle);
    StepThen(cfg, s, tick, [begin] + rest, w, oracle);
    steps := [tick] + ([begin] + rest);
    LeadsParts(cfg, s, steps, w, oracle);
  }

  lemma {:induction false} JoinGuided(cfg: Config, s: System, first: seq<Step>, second: seq<Step>, oracle: Oracle)
    requires ValidRun(cfg, s, first) && ValidRun(cfg, After(cfg, s, first), second)
    requires Guided(cfg, s, first, oracle) && Guided(cfg, After(cfg, s, first), second, oracle)
    ensures ValidRun(cfg, s, first + second) && Guided(cfg, s, first + second, oracle)
    ensures After(cfg, s, first + second) == After(cfg, After(cfg, s, first), second)
    decreases |first|
  {
    hide Enabled, Apply, Quiescent, Obeys;
    if first == [] {
      assert first + second == second;
    } else {
      assert (first + second)[1..] == first[1..] + second;
      JoinGuided(cfg, Apply(cfg, s, first[0]), first[1..], second, oracle);
    }
  }

  lemma {:induction false} LeadsThen(cfg: Config, s: System, first: seq<Step>, second: seq<Step>, w: nat, oracle: Oracle)
    requires Leads(cfg, s, first, w, oracle) && Leads(cfg, After(cfg, s, first), second, w, oracle)
    ensures Leads(cfg, s, first + second, w, oracle)
    ensures After(cfg, s, first + second) == After(cfg, After(cfg, s, first), second)
  {
    hide Enabled, Apply, ValidRun, After, Guided, Settled, RowsKept;
    JoinGuided(cfg, s, first, second, oracle);
    RowsKeptThen(s.t, After(cfg, s, first).t, After(cfg, After(cfg, s, first), second).t);
  }

  lemma {:induction false} DrainFromTop(cfg: Config, s: System, w: nat, oracle: Oracle) returns (steps: seq<Step>)
    requires Settled(s) && w < |s.workers| && s.workers[w] == AtTop
    ensures Leads(cfg, s, steps, w, oracle) && Idle(After(cfg, s, steps).t)
    decreases WorkOf(s.t.files)
  {
    hide Enabled, Apply, Settled, WorkOf, Idle, Leads, After, ValidRun;
    if Idle(s.t) {
      NothingLeads(cfg, s, w, oracle);
      steps := [];
    } else {
      var first := OneMoreDone(cfg, s, w, oracle);
      LeadsParts(cfg, s, first, w, oracle);
      var mid := After(cfg, s, first);
      var second := DrainFromTop(cfg, mid, w, oracle);
      LeadsThen(cfg, s, first, second, w, oracle);
      steps := first + second;
      LeadsParts(cfg, mid, second, w, oracle);
      LeadsParts(cfg, s, steps, w, oracle);
    }
  }

  /** Every row that was in the queue is ready or in error, and every other is as it was. */
  ghost predicate Drained(before: Tables, after: Tables) {
    && after.files.Keys == before.files.Keys
    && forall p :: p in before.files ==>
         if Queued(before.files[p]) then after.files[p].status in {Ready, Failed} else after.files[p] == before.files[p]
  }

  lemma IdleIsDrained(before: Tables, after: Tables)
    requires RowsKept(before, after) && Idle(after)
    ensures Drained(before, after)
  {}

  /** From any reachable state with one living worker, and however every job ends, succeeding,
      failing for good or failing and being retried, the workers can bring the queue to the exit
      condition of waiting until idle, with every queued row ready or in error. */
  lemma QueueCanDrain(cfg: Config, s: System, w: nat, oracle: Oracle) returns (steps: seq<Step>)
    requires Reachable(cfg, s) && w < |s.workers| && !s.workers[w].Stopped?
    ensures ValidRun(cfg, s, steps) && Guided(cfg, s, steps, oracle)
    ensures Idle(After(cfg, s, steps).t) && Drained(s.t, After(cfg, s, steps).t)
  {
    SettledInReach(cfg, s);
    hide Enabled, Apply, Settled, WorkOf, Idle, After, ValidRun, Drained, RowsKept, Guided;
    var first := FinishCurrent(cfg, s, w, oracle);
    var second := DrainFromTop(cfg, After(cfg, s, first), w, oracle);
    LeadsThen(cfg, s, first, second, w, oracle);
    steps := first + second;
    IdleIsDrained(s.t, After(cfg, s, steps).t);
  }
}
