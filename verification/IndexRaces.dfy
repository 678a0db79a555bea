/** Concrete runs that mark the limits of the queue's guarantees. */
module IndexRaces {
  import opened Wrappers
  import opened Extraction
  import opened NativeAcl
  import opened IndexTables
  import opened IndexSystem
  import opened IndexFencing
  import opened IndexFreshness
  import opened IndexWakeUp

  lemma OneStep(cfg: Config, s: System, step: Step)
    requires Reachable(cfg, s) && Enabled(cfg, s, step)
    ensures Reachable(cfg, Apply(cfg, s, step))
  {
    hide Enabled, Apply;
    var n: nat, clock, steps: seq<Step> :|
      n > 0 && ValidRun(cfg, Start(n, clock), steps) && s == After(cfg, Start(n, clock), steps);
    Extend(cfg, Start(n, clock), steps, step);
  }

  lemma {:induction false} Extend(cfg: Config, s: System, steps: seq<Step>, step: Step)
    requires ValidRun(cfg, s, steps) && Enabled(cfg, After(cfg, s, steps), step)
    ensures ValidRun(cfg, s, steps + [step])
    ensures After(cfg, s, steps + [step]) == Apply(cfg, After(cfg, s, steps), step)
    decreases |steps|
  {
    hide Enabled, Apply;
    if steps == [] {
      assert steps + [step] == [step] && [step][1..] == [];
    } else {
      assert (steps + [step])[1..] == steps[1..] + [step];
      Extend(cfg, Apply(cfg, s, steps[0]), steps[1..], step);
    }
  }

  lemma StartReachable(cfg: Config, n: nat, clock: real)
    requires n > 0
    ensures Reachable(cfg, Start(n, clock))
  {
    assert ValidRun(cfg, Start(n, clock), []) && After(cfg, Start(n, clock), []) == Start(n, clock);
  }

  /** A row a rescan of this one file leaves behind. */
  predicate QueuedFrom(cfg: Config, t: Tables, f: FileInfo) {
    t.files.Keys == {f.path} && t.files[f.path] == FreshRow(cfg, t.files[f.path].rowid, f)
  }

  lemma RescanOnlyFile(cfg: Config, s: System, f: FileInfo) returns (s': System)
    requires Reachable(cfg, s) && s.t.files.Keys <= {f.path}
    requires InitialStatus(cfg, IdentityOf(cfg, f)) == (Pending, None)
    ensures Reachable(cfg, s') && s' == Apply(cfg, s, EnqueueTx([f], false))
    ensures QueuedFrom(cfg, s'.t, f) && s'.t.files[f.path].status == Pending
    ensures s'.workers == s.workers && s'.setters == s.setters + 1
    ensures s'.readings == s.readings && s'.repeated == s.repeated && s'.clock == s.clock
  {
    s' := Apply(cfg, s, EnqueueTx([f], false));
    assert [f][..0] == [];
    OneStep(cfg, s, EnqueueTx([f], false));
    hide StartsOver, BudgetOf, RowsAt, Without, IdentityOf, Lower;
    assert EnqueueAll(cfg, s.t, [f], false) == EnqueueOne(cfg, s.t, f, false);
  }

  lemma ClaimOnlyFile(cfg: Config, s: System, w: nat, f: FileInfo) returns (s': System)
    requires Reachable(cfg, s) && QueuedFrom(cfg, s.t, f) && s.t.files[f.path].status == Pending
    requires w < |s.workers| && s.workers[w].Claiming?
    ensures Reachable(cfg, s') && s'.clock == s.clock
    ensures s'.readings == s.readings[f.path := ReadingsOf(s, f.path) + {s.workers[w].now}]
    ensures s'.repeated == if s.workers[w].now in ReadingsOf(s, f.path) then s.repeated + {f.path} else s.repeated
    ensures s'.workers == s.workers[w := Working(Job(f.path, IdentityOf(cfg, f), 0, 1, s.workers[w].now + LEASE_SECONDS))]
    ensures s'.t.files.Keys == {f.path}
    ensures HoldsClaim(s'.t, s'.workers[w].job)
  {
    var step := ClaimTx(w, f.path);
    assert FirstEligible(s.t, f.path, s.workers[w].now);
    OneStep(cfg, s, step);
    s' := Apply(cfg, s, step);
  }

  /** Two claims on one clock reading: with a rescan between them, both outstanding claims
      satisfy the fencing predicate. */
  lemma EqualReadingsDefeatFencing(cfg: Config, f: FileInfo, clock: real) returns (s: System)
    requires InitialStatus(cfg, IdentityOf(cfg, f)) == (Pending, None)
    ensures Reachable(cfg, s) && f.path in s.repeated
    ensures JobHeld(s, 0).Some? && JobHeld(s, 1).Some? && JobHeld(s, 0).value.path == f.path == JobHeld(s, 1).value.path
    ensures HoldsClaim(s.t, JobHeld(s, 0).value) && HoldsClaim(s.t, JobHeld(s, 1).value)
  {
    hide RowsAt, Without, EnqueueMany, ClaimPath, StartsOver;
    StartReachable(cfg, 2, clock);
    var s0 := RescanOnlyFile(cfg, Start(2, clock), f);
    OneStep(cfg, s0, Begin(0));
    var s1 := Apply(cfg, s0, Begin(0));
    OneStep(cfg, s1, Begin(1));
    var s2 := Apply(cfg, s1, Begin(1));
    var s3 := ClaimOnlyFile(cfg, s2, 0, f);
    var s4 := RescanOnlyFile(cfg, s3, f);
    s := ClaimOnlyFile(cfg, s4, 1, f);
  }

  /** The attempt number alone would not fence: after a rescan a superseded claim agrees with
      the row in everything but the lease. */
  lemma AttemptsDoNotFence(cfg: Config, f: FileInfo, clock: real) returns (s: System)
    requires InitialStatus(cfg, IdentityOf(cfg, f)) == (Pending, None)
    ensures Reachable(cfg, s) && f.path !in s.repeated && JobHeld(s, 0).Some? && f.path in s.t.files
    ensures var job, row := JobHeld(s, 0).value, s.t.files[f.path];
      && job.path == f.path && job.id == row.id && row.status == Running && row.attempts == job.claimAttempt
      && !HoldsClaim(s.t, job)
  {
    hide RowsAt, Without, EnqueueMany, ClaimPath, StartsOver;
    StartReachable(cfg, 2, clock);
    var s0 := RescanOnlyFile(cfg, Start(2, clock), f);
    OneStep(cfg, s0, Begin(0));
    var s1 := ClaimOnlyFile(cfg, Apply(cfg, s0, Begin(0)), 0, f);
    var s2 := RescanOnlyFile(cfg, s1, f);
    s := ClaimLater(cfg, s2, f, clock);
  }

  lemma ClaimLater(cfg: Config, s: System, f: FileInfo, clock: real) returns (s': System)
    requires Reachable(cfg, s) && QueuedFrom(cfg, s.t, f) && s.t.files[f.path].status == Pending
    requires |s.workers| == 2 && s.workers[0].Working? && s.workers[1] == AtTop
    requires s.workers[0].job == Job(f.path, IdentityOf(cfg, f), 0, 1, clock + LEASE_SECONDS)
    requires ReadingsOf(s, f.path) == {clock} && f.path !in s.repeated
    ensures Reachable(cfg, s') && f.path !in s'.repeated && JobHeld(s', 0) == Some(s.workers[0].job) && f.path in s'.t.files
    ensures var job, row := s.workers[0].job, s'.t.files[f.path];
      && job.id == row.id && row.status == Running && row.attempts == job.claimAttempt && !HoldsClaim(s'.t, job)
  {
    hide RowsAt, Without, EnqueueMany, ClaimPath, StartsOver, FreshRow, ReadingsOf, IdentityOf;
    OneStep(cfg, s, Tick(clock + 1.0));
    var s3 := Apply(cfg, s, Tick(clock + 1.0));
    OneStep(cfg, s3, Begin(1));
    var s4 := Apply(cfg, s3, Begin(1));
    SameReadings(s, s4, f.path);
    s' := ClaimOnlyFile(cfg, s4, 1, f);
  }

  lemma SameReadings(s: System, s': System, path: string)
    requires s'.readings == s.readings
    ensures ReadingsOf(s', path) == ReadingsOf(s, path)
  {}

  lemma SleeperMissesTheSignal(cfg: Config, f: FileInfo, clock: real) returns (s: System)
    requires InitialStatus(cfg, IdentityOf(cfg, f)) == (Pending, None)
    ensures Reachable(cfg, s) && QueuedFrom(cfg, s.t, f) && s.t.files[f.path].status == Pending
    ensures s.workers == [Deciding(None), AtTop] && s.setters == 1 && s.clock == clock
  {
    StartReachable(cfg, 2, clock);
    var s0 := Start(2, clock);
    OneStep(cfg, s0, Begin(0));
    var s1 := Apply(cfg, s0, Begin(0));
    OneStep(cfg, s1, ClaimNothing(0));
    var s2 := Apply(cfg, s1, ClaimNothing(0));
    OneStep(cfg, s2, ReadNext(0, None));
    var s3 := Apply(cfg, s2, ReadNext(0, None));
    s := RescanOnlyFile(cfg, s3, f);
  }

  /** Such a death is reachable: a worker that dies between clearing the event and claiming can
      be the last to know of a runnable row, and the other one then sleeps for the longest wait. */
  lemma CrashLosesWakeUp(cfg: Config, f: FileInfo, clock: real) returns (s: System)
    requires InitialStatus(cfg, IdentityOf(cfg, f)) == (Pending, None)
    ensures Reachable(cfg, s) && !Lost(s) && Enabled(cfg, s, Dies(1)) && Loses(s, Dies(1))
    ensures var dead := Apply(cfg, s, Dies(1));
      && Lost(dead) && Enabled(cfg, dead, StartWaiting(0))
      && Lost(Apply(cfg, dead, StartWaiting(0)))
      && Apply(cfg, dead, StartWaiting(0)).workers == [Waiting(clock, clock + LONGEST_WAIT), Stopped]
  {
    var s3 := SleeperMissesTheSignal(cfg, f, clock);
    hide FreshRow;
    OneStep(cfg, s3, SetWake);
    var s4 := Apply(cfg, s3, SetWake);
    OneStep(cfg, s4, Begin(1));
    s := Apply(cfg, s4, Begin(1));
    FreshRowIsNew(cfg, s3.t.files[f.path].rowid, f);
    assert s.t == s3.t;
    assert RunnableNow(s.t);
    hide RunnableNow;
    BecameAware(s.workers, 1);
    LostExactlyBy(cfg, s, Dies(1));
    LostExactlyUntil(cfg, Apply(cfg, s, Dies(1)), StartWaiting(0));
  }
}
