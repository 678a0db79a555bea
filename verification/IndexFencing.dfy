/** Fencing of claims: when a path is not claimed twice on one clock reading, at most one
    outstanding claim of it is live, and one that was superseded stays harmless. */
module IndexFencing {
  import opened Wrappers
  import opened Extraction
  import opened NativeAcl
  import opened IndexTables
  import opened IndexSystem
  import opened IndexFreshness

  ghost function JobHeld(s: System, w: nat): Option<Job> {
    if w < |s.workers| && (s.workers[w].Working? || s.workers[w].Failing?) then Some(s.workers[w].job) else None
  }

  ghost function HeldLease(s: System, w: nat, path: string): Option<real> {
    var job := JobHeld(s, w);
    if job.Some? && job.value.path == path then Some(job.value.claimLease) else None
  }

  /** The outstanding claims of a path were made on recorded readings, and on different ones
      unless a reading was used twice. */
  ghost predicate LeaseInvariant(s: System, path: string) {
    && (forall w :: 0 <= w < |s.workers| && HeldLease(s, w, path).Some? ==>
          HeldLease(s, w, path).value - LEASE_SECONDS in ReadingsOf(s, path))
    && (path !in s.repeated ==>
          forall v, w :: 0 <= v < w < |s.workers| && HeldLease(s, v, path).Some? ==>
            HeldLease(s, v, path) != HeldLease(s, w, path))
  }

  lemma OtherLeasesKept(cfg: Config, s: System, step: Step, path: string)
    requires Enabled(cfg, s, step)
    ensures var s' := Apply(cfg, s, step);
      forall v :: 0 <= v < |s'.workers| && HeldLease(s', v, path).Some? ==>
        || (v < |s.workers| && HeldLease(s', v, path) == HeldLease(s, v, path))
        || (step == ClaimTx(v, path) && v < |s.workers| && s.workers[v].Claiming?
            && HeldLease(s', v, path) == Some(s.workers[v].now + LEASE_SECONDS))
  {
    hide EnqueueMany, DeleteAll, Recover, ClaimPath, Publish, RecordFailure, HoldsClaim, BudgetOf, StartsOver, FirstEligible,
         NoneEligible, HasText, DocumentRows, PagesOf, ReadingsOf;
  }

  lemma ReadingsKept(cfg: Config, s: System, step: Step, path: string)
    requires Enabled(cfg, s, step) && !step.Restart?
    ensures var s' := Apply(cfg, s, step);
      && ReadingsOf(s, path) <= ReadingsOf(s', path) && s.repeated <= s'.repeated
      && (step.ClaimTx? && step.path == path ==>
            && s.workers[step.w].now in ReadingsOf(s', path)
            && (s.workers[step.w].now in ReadingsOf(s, path) ==> path in s'.repeated))
  {
    hide EnqueueMany, DeleteAll, Recover, ClaimPath, Publish, RecordFailure, HoldsClaim, BudgetOf, StartsOver, FirstEligible,
         NoneEligible, HasText, DocumentRows, PagesOf;
  }

  lemma LeaseStep(cfg: Config, s: System, step: Step, path: string)
    requires Enabled(cfg, s, step) && LeaseInvariant(s, path)
    ensures LeaseInvariant(Apply(cfg, s, step), path)
  {
    var s' := Apply(cfg, s, step);
    OtherLeasesKept(cfg, s, step, path);
    if step.Restart? {
      assert forall v :: 0 <= v < |s'.workers| ==> HeldLease(s', v, path).None?;
    } else {
      ReadingsKept(cfg, s, step, path);
      hide Apply, ReadingsOf, HeldLease;
    }
  }

  lemma {:induction false} LeaseRun(cfg: Config, s: System, steps: seq<Step>, path: string)
    requires ValidRun(cfg, s, steps) && LeaseInvariant(s, path)
    ensures LeaseInvariant(After(cfg, s, steps), path)
    decreases |steps|
  {
    hide Enabled, Apply, LeaseInvariant;
    if steps != [] {
      LeaseStep(cfg, s, steps[0], path);
      LeaseRun(cfg, Apply(cfg, s, steps[0]), steps[1..], path);
    }
  }

  lemma LeasesInReach(cfg: Config, s: System, path: string)
    requires Reachable(cfg, s)
    ensures LeaseInvariant(s, path)
  {
    var n: nat, clock, steps: seq<Step> :|
      n > 0 && ValidRun(cfg, Start(n, clock), steps) && s == After(cfg, Start(n, clock), steps);
    LeaseRun(cfg, Start(n, clock), steps, path);
  }

  /** The boundary of fencing, at the step where it is decided: a claim of a path leaves
      another worker's claim of it live exactly when identity, attempt number and clock
      reading all coincide. */
  lemma ClaimSupersedesIff(cfg: Config, s: System, v: nat, w: nat, path: string)
    requires Enabled(cfg, s, ClaimTx(v, path)) && v != w
    requires JobHeld(s, w).Some? && JobHeld(s, w).value.path == path
    ensures var job, row := JobHeld(s, w).value, s.t.files[path];
      HoldsClaim(Apply(cfg, s, ClaimTx(v, path)).t, job) <==>
        job.id == row.id && job.claimAttempt == row.attempts + 1 && job.claimLease == s.workers[v].now + LEASE_SECONDS
  {}

  /** At most one outstanding claim of a path satisfies the fencing predicate, whatever the
      clock did for other paths and for claims that found nothing. */
  lemma AtMostOneLiveClaim(cfg: Config, s: System, v: nat, w: nat)
    requires Reachable(cfg, s) && v != w
    requires JobHeld(s, v).Some? && JobHeld(s, w).Some? && JobHeld(s, v).value.path == JobHeld(s, w).value.path
    requires JobHeld(s, v).value.path !in s.repeated
    ensures !HoldsClaim(s.t, JobHeld(s, v).value) || !HoldsClaim(s.t, JobHeld(s, w).value)
  {
    var path := JobHeld(s, v).value.path;
    LeasesInReach(cfg, s, path);
    assert HeldLease(s, v, path) != HeldLease(s, w, path);
  }

  lemma {:induction false} NoRevivalByTables(cfg: Config, t: Tables, job: Job, batch: seq<FileInfo>, onlyIfMissing: bool,
                                             now: real, paths: seq<string>)
    requires !HoldsClaim(t, job)
    ensures !HoldsClaim(EnqueueMany(cfg, t, batch, onlyIfMissing, now), job)
    ensures !HoldsClaim(DeleteAll(t, paths), job)
  {
    hide RowsAt, Listed, InitialStatus, DeleteAll, EnqueueAll;
    EnqueueAllAt(cfg, t, batch, onlyIfMissing, job.path);
    DeleteAllAt(t, paths, job.path);
  }

  /** A superseded claim does not come back to life, whatever any other party does next. */
  lemma SupersededStays(cfg: Config, s: System, step: Step, w: nat)
    requires Enabled(cfg, s, step) && JobHeld(s, w).Some? && LeaseInvariant(s, JobHeld(s, w).value.path)
    requires !HoldsClaim(s.t, JobHeld(s, w).value) && JobHeld(Apply(cfg, s, step), w) == JobHeld(s, w)
    requires JobHeld(s, w).value.path !in Apply(cfg, s, step).repeated
    ensures !HoldsClaim(Apply(cfg, s, step).t, JobHeld(s, w).value)
  {
    var job := JobHeld(s, w).value;
    match step {
      case EnqueueTx(batch, onlyIfMissing) =>
        NoRevivalByTables(cfg, s.t, job, batch, onlyIfMissing, s.clock, []);
      case DeleteTx(paths) =>
        NoRevivalByTables(cfg, s.t, job, [], true, s.clock, paths);
      case ClaimTx(v, path) =>
        assert v != w;
        if path == job.path {
          assert HeldLease(s, w, path) == Some(job.claimLease);
          ReadingsKept(cfg, s, step, path);
          ClaimSupersedesIff(cfg, s, v, w, path);
        }
      case _ =>
        hide RowsAt, DocumentRows, HasText;
    }
  }

  ghost predicate KeepsJob(cfg: Config, s: System, steps: seq<Step>, w: nat, job: Job)
    requires ValidRun(cfg, s, steps)
    decreases |steps|
  {
    JobHeld(s, w) == Some(job) && (steps == [] || KeepsJob(cfg, Apply(cfg, s, steps[0]), steps[1..], w, job))
  }

  /** The same over a whole run: for as long as the superseded worker keeps its job, what it
      would publish or report leaves both tables as they are. */
  lemma {:induction false} SupersededIsHarmless(cfg: Config, s: System, steps: seq<Step>, w: nat, job: Job,
                                                doc: Document, acl: AclRecord, reason: string, retry: bool, now: real)
    requires LeaseInvariant(s, job.path) && ValidRun(cfg, s, steps) && KeepsJob(cfg, s, steps, w, job)
    requires !HoldsClaim(s.t, job) && job.path !in After(cfg, s, steps).repeated
    ensures var t := After(cfg, s, steps).t;
      && Publish(cfg, t, job, DocumentRows(doc, cfg.maxTextChars), PagesOf(doc), acl) == t
      && RecordFailure(t, job, reason, retry, now) == t
    decreases |steps|
  {
    if steps != [] {
      var next := Apply(cfg, s, steps[0]);
      NoRestart(cfg, s, steps[0], w);
      hide Enabled, Apply, LeaseInvariant, HoldsClaim;
      LeaseStep(cfg, s, steps[0], job.path);
      RepeatsGrow(cfg, next, steps[1..], w, job);
      SupersededStays(cfg, s, steps[0], w);
      SupersededIsHarmless(cfg, next, steps[1..], w, job, doc, acl, reason, retry, now);
    }
  }

  /** A worker that keeps its job lives in one process. */
  lemma NoRestart(cfg: Config, s: System, step: Step, w: nat)
    requires Enabled(cfg, s, step) && JobHeld(Apply(cfg, s, step), w).Some?
    ensures !step.Restart?
  {}

  lemma {:induction false} RepeatsGrow(cfg: Config, s: System, steps: seq<Step>, w: nat, job: Job)
    requires ValidRun(cfg, s, steps) && KeepsJob(cfg, s, steps, w, job)
    ensures s.repeated <= After(cfg, s, steps).repeated
    decreases |steps|
  {
    if steps != [] {
      NoRestart(cfg, s, steps[0], w);
      hide Enabled, Apply;
      ReadingsKept(cfg, s, steps[0], job.path);
      RepeatsGrow(cfg, Apply(cfg, s, steps[0]), steps[1..], w, job);
    }
  }

  /** What supersedes a claim: a rescan, a delete, another worker's claim. */
  ghost predicate TakesOver(step: Step, w: nat, path: string) {
    match step
    case EnqueueTx(batch, onlyIfMissing) => !onlyIfMissing && Listed(batch, path)
    case DeleteTx(paths) => path in paths
    case ClaimTx(v, claimed) => v != w && claimed == path
    case _ => false
  }

  /** A rescan and a delete always supersede; a claim by another worker does unless the path
      has been claimed twice on one reading. */
  lemma TakeOverSupersedes(cfg: Config, s: System, step: Step, w: nat)
    requires Reachable(cfg, s) && Enabled(cfg, s, step)
    requires JobHeld(s, w).Some? && TakesOver(step, w, JobHeld(s, w).value.path)
    requires step.ClaimTx? ==> step.path !in Apply(cfg, s, step).repeated
    ensures !HoldsClaim(Apply(cfg, s, step).t, JobHeld(s, w).value)
  {
    var job := JobHeld(s, w).value;
    match step {
      case EnqueueTx(batch, onlyIfMissing) =>
        hide RowsAt, InitialStatus, EnqueueAll;
        EnqueueAllAt(cfg, s.t, batch, onlyIfMissing, job.path);
      case DeleteTx(paths) =>
        hide RowsAt, DeleteAll;
        DeleteAllAt(s.t, paths, job.path);
      case ClaimTx(v, path) =>
        LeasesInReach(cfg, s, path);
        assert HeldLease(s, w, path) == Some(job.claimLease);
        ReadingsKept(cfg, s, step, path);
        ClaimSupersedesIff(cfg, s, v, w, path);
      case _ =>
    }
  }
}
