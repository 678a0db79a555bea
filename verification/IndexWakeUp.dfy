/** Workers and enqueuers share one event, and a worker that finds nothing sleeps until the next
    retry is due. Which deaths lose a wake-up or a retry, exactly, and what brings it back. */
module IndexWakeUp {
  import opened Wrappers
  import opened Extraction
  import opened NativeAcl
  import opened IndexTables
  import opened IndexSystem

  /** A row that any claim would accept, whatever the clock says. */
  ghost predicate RunnableNow(t: Tables) {
    exists p :: p in t.files && t.files[p].status == Pending && t.files[p].nextAttemptAt.None?
  }

  /** Past an empty claim, asleep, or gone. */
  predicate Unaware(pc: Pc) {
    pc.Empty? || pc.Deciding? || pc.Waiting? || pc.Stopped?
  }

  ghost predicate SomeoneAware(workers: seq<Pc>) {
    exists w :: 0 <= w < |workers| && !Unaware(workers[w])
  }

  /** A row could run at once, but nobody looks for it and nobody is about to be told. */
  ghost predicate Lost(s: System) {
    RunnableNow(s.t) && !s.wake && s.setters == 0 && !SomeoneAware(s.workers)
  }

  ghost predicate LastAware(workers: seq<Pc>, w: nat) {
    && w < |workers| && !Unaware(workers[w])
    && forall v :: 0 <= v < |workers| && v != w ==> Unaware(workers[v])
  }

  /** The death of the last one to know of a runnable row: an enqueuer before its signal, or a
      worker that was claiming or reporting. */
  ghost predicate Loses(s: System, step: Step) {
    && RunnableNow(s.t) && !s.wake
    && match step
       case EnqueuerDies => s.setters == 1 && !SomeoneAware(s.workers)
       case Dies(w) => s.setters == 0 && LastAware(s.workers, w)
       case _ => false
  }

  lemma BecameAware(workers: seq<Pc>, w: nat)
    requires w < |workers| && !Unaware(workers[w])
    ensures SomeoneAware(workers)
  {}

  lemma StillAware(before: seq<Pc>, after: seq<Pc>)
    requires SomeoneAware(before) && |before| == |after|
    requires forall k :: 0 <= k < |before| && !Unaware(before[k]) ==> !Unaware(after[k])
    ensures SomeoneAware(after)
  {
    var w :| 0 <= w < |before| && !Unaware(before[w]);
    assert !Unaware(after[w]);
  }

  lemma AwareAfterDeath(before: seq<Pc>, w: nat)
    requires w < |before|
    ensures SomeoneAware(before[w := Stopped]) <==> SomeoneAware(before) && !LastAware(before, w)
  {
    var after := before[w := Stopped];
    if v :| 0 <= v < |before| && v != w && !Unaware(before[v]) {
      assert !Unaware(after[v]);
    } else {
      assert forall v :: 0 <= v < |after| ==> Unaware(after[v]);
    }
  }

  lemma {:induction false} RunnableAfterDelete(t: Tables, paths: seq<string>)
    requires RunnableNow(DeleteAll(t, paths))
    ensures RunnableNow(t)
  {
    var r := DeleteAll(t, paths);
    var p :| p in r.files && r.files[p].status == Pending && r.files[p].nextAttemptAt.None?;
    DeleteAllAt(t, paths, p);
  }

  /** No lost wake-up: from a state that has lost none, a step loses one exactly when it is the
      death of the last party that knew of a runnable row. */
  lemma LostExactlyBy(cfg: Config, s: System, step: Step)
    requires Enabled(cfg, s, step) && !Lost(s)
    ensures Lost(Apply(cfg, s, step)) <==> Loses(s, step)
  {
    hide SomeoneAware, LastAware, DocumentRows, HasText, Without, FtsRowsFor, DeleteAll, EnqueueMany;
    var s' := Apply(cfg, s, step);
    match step {
      case Restart(n) => BecameAware(s'.workers, 0);
      case Begin(w) => BecameAware(s'.workers, w);
      case ClaimTx(w, _) => BecameAware(s'.workers, w);
      case StopWaiting(w) => BecameAware(s'.workers, w);
      case PublishTx(w, _, _) => BecameAware(s'.workers, w);
      case JobFails(w, _, _) => BecameAware(s'.workers, w);
      case FailureTx(w, _) => BecameAware(s'.workers, w);
      case ReadNext(w, _) =>
        if SomeoneAware(s.workers) { StillAware(s.workers, s'.workers); }
        if SomeoneAware(s'.workers) { StillAware(s'.workers, s.workers); }
      case StartWaiting(w) =>
        if !s.wake && SomeoneAware(s.workers) { StillAware(s.workers, s'.workers); }
      case Dies(w) => AwareAfterDeath(s.workers, w);
      case ClaimNothing(w) => NothingRunnable(s.t, s.workers[w].now);
      case DeleteTx(paths) =>
        if RunnableNow(s'.t) { RunnableAfterDelete(s.t, paths); }
      case _ =>
    }
  }

  lemma NothingRunnable(t: Tables, now: real)
    requires NoneEligible(t, now)
    ensures !RunnableNow(t)
  {}

  /** What brings it back: a new enqueuer, a restart, a sleeper whose deadline has come, or the
      deletion of every runnable row; and nothing else. */
  lemma LostExactlyUntil(cfg: Config, s: System, step: Step)
    requires Enabled(cfg, s, step) && Lost(s)
    ensures !Lost(Apply(cfg, s, step)) <==>
      || step.EnqueueTx? || step.Restart? || step.StopWaiting?
      || (step.DeleteTx? && !RunnableNow(DeleteAll(s.t, step.paths)))
  {
    hide RunnableNow, DocumentRows, HasText, Without, FtsRowsFor, DeleteAll, EnqueueMany, WaitSeconds;
    var s' := Apply(cfg, s, step);
    match step {
      case Restart(n) => BecameAware(s'.workers, 0);
      case StopWaiting(w) => BecameAware(s'.workers, w);
      case _ =>
    }
  }

  ghost predicate NeverLost(cfg: Config, s: System, steps: seq<Step>)
    requires ValidRun(cfg, s, steps)
    decreases |steps|
  {
    !Lost(s) && (steps == [] || NeverLost(cfg, Apply(cfg, s, steps[0]), steps[1..]))
  }

  ghost predicate NoneLoses(cfg: Config, s: System, steps: seq<Step>)
    requires ValidRun(cfg, s, steps)
    decreases |steps|
  {
    steps == [] || (!Loses(s, steps[0]) && NoneLoses(cfg, Apply(cfg, s, steps[0]), steps[1..]))
  }

  lemma {:induction false} NeverLostIff(cfg: Config, s: System, steps: seq<Step>)
    requires ValidRun(cfg, s, steps) && !Lost(s)
    ensures NeverLost(cfg, s, steps) <==> NoneLoses(cfg, s, steps)
    decreases |steps|
  {
    hide Enabled, Apply, Lost, Loses;
    if steps != [] {
      LostExactlyBy(cfg, s, steps[0]);
      if !Loses(s, steps[0]) {
        NeverLostIff(cfg, Apply(cfg, s, steps[0]), steps[1..]);
      }
    }
  }

  /** No run loses a wake-up, for any number of workers and enqueuers, exactly as long as no such
      death happens in it; harmless deaths may. */
  lemma {:induction false} NoLostWakeUp(cfg: Config, n: nat, clock: real, steps: seq<Step>)
    requires ValidRun(cfg, Start(n, clock), steps)
    ensures NeverLost(cfg, Start(n, clock), steps) <==> NoneLoses(cfg, Start(n, clock), steps)
  {
    NeverLostIff(cfg, Start(n, clock), steps);
  }

  // ----- delayed retries -----

  /** Will see to a retry due at this time: it has yet to look for the next one, or goes by one
      that is no later, give or take the shortest wait. */
  ghost predicate Minds(pc: Pc, time: real) {
    match pc
    case Deciding(next) => next.Some? && next.value <= time
    case Waiting(since, until) => until <= time || until <= since + SHORTEST_WAIT
    case Stopped => false
    case _ => true
  }

  ghost predicate SomeoneMinds(workers: seq<Pc>, time: real) {
    exists w :: 0 <= w < |workers| && Minds(workers[w], time)
  }

  ghost predicate DelayedAt(t: Tables, path: string) {
    path in t.files && Delayed(t.files[path])
  }

  /** A delayed row that every worker would sleep through. */
  ghost predicate Forgotten(s: System, path: string) {
    DelayedAt(s.t, path) && !SomeoneMinds(s.workers, s.t.files[path].nextAttemptAt.value)
  }

  ghost predicate LastToMind(workers: seq<Pc>, w: nat, time: real) {
    && w < |workers| && Minds(workers[w], time)
    && forall v :: 0 <= v < |workers| && v != w ==> !Minds(workers[v], time)
  }

  ghost predicate Forgets(s: System, step: Step, path: string) {
    DelayedAt(s.t, path) && step.Dies? && LastToMind(s.workers, step.w, s.t.files[path].nextAttemptAt.value)
  }

  lemma BecameMinded(workers: seq<Pc>, w: nat, time: real)
    requires w < |workers| && Minds(workers[w], time)
    ensures SomeoneMinds(workers, time)
  {}

  /** A worker goes on minding a row for as long as it is delayed, unless it dies. */
  lemma StillMinds(cfg: Config, s: System, step: Step, w: nat, path: string)
    requires Enabled(cfg, s, step) && !step.Restart? && step != Dies(w)
    requires DelayedAt(s.t, path) && w < |s.workers| && Minds(s.workers[w], s.t.files[path].nextAttemptAt.value)
    ensures w < |Apply(cfg, s, step).workers|
    ensures Minds(Apply(cfg, s, step).workers[w], s.t.files[path].nextAttemptAt.value)
  {
    hide DocumentRows, HasText, Without, FtsRowsFor, DeleteAll, EnqueueMany, RecordFailure, Publish, ClaimPath;
  }

  /** A row is delayed by the report of a worker that is still to signal it, or was before. */
  lemma DelayedBefore(cfg: Config, s: System, step: Step, path: string)
    requires Enabled(cfg, s, step) && !step.Restart? && DelayedAt(Apply(cfg, s, step).t, path)
    ensures || (step.FailureTx? && Apply(cfg, s, step).workers[step.w].Signalling?)
            || (DelayedAt(s.t, path) && s.t.files[path].nextAttemptAt == Apply(cfg, s, step).t.files[path].nextAttemptAt)
  {
    hide RowsAt, Without, FtsRowsFor, DocumentRows, HasText, Backoff, BudgetOf, StartsOver;
    match step {
      case EnqueueTx(batch, onlyIfMissing) =>
        hide EnqueueAll, Listed, InitialStatus, IdentityOf;
        EnqueueAllAt(cfg, s.t, batch, onlyIfMissing, path);
      case DeleteTx(paths) =>
        hide DeleteAll;
        DeleteAllAt(s.t, paths, path);
      case _ =>
    }
  }

  lemma DelayedAfterDeath(cfg: Config, s: System, w: nat, path: string)
    requires Enabled(cfg, s, Dies(w)) && DelayedAt(s.t, path) && !Forgotten(s, path)
    ensures Forgotten(Apply(cfg, s, Dies(w)), path) <==> Forgets(s, Dies(w), path)
  {
    var time := s.t.files[path].nextAttemptAt.value;
    var after := s.workers[w := Stopped];
    if v :| 0 <= v < |s.workers| && v != w && Minds(s.workers[v], time) {
      assert Minds(after[v], time);
    } else {
      assert forall v :: 0 <= v < |after| ==> !Minds(after[v], time);
    }
  }

  lemma SignallingMinds(pc: Pc, time: real)
    requires pc.Signalling?
    ensures Minds(pc, time)
  {}

  /** No forgotten retry: a step makes every worker sleep through a delayed row exactly when it
      is the death of the last one that minded it. */
  lemma ForgottenExactlyBy(cfg: Config, s: System, step: Step, path: string)
    requires Enabled(cfg, s, step) && !Forgotten(s, path)
    ensures Forgotten(Apply(cfg, s, step), path) <==> Forgets(s, step, path)
  {
    var s' := Apply(cfg, s, step);
    if step.Dies? {
      if DelayedAt(s.t, path) {
        DelayedAfterDeath(cfg, s, step.w, path);
      }
    } else if DelayedAt(s'.t, path) {
      var time := s'.t.files[path].nextAttemptAt.value;
      if step.Restart? {
        BecameMinded(s'.workers, 0, time);
      } else {
        DelayedBefore(cfg, s, step, path);
        hide Enabled, Apply, Minds;
        if step.FailureTx? && s'.workers[step.w].Signalling? {
          SignallingMinds(s'.workers[step.w], time);
          BecameMinded(s'.workers, step.w, time);
        } else {
          var w :| 0 <= w < |s.workers| && Minds(s.workers[w], time);
          StillMinds(cfg, s, step, w, path);
          BecameMinded(s'.workers, w, time);
        }
      }
    }
  }

  ghost predicate NeverForgotten(cfg: Config, s: System, steps: seq<Step>, path: string)
    requires ValidRun(cfg, s, steps)
    decreases |steps|
  {
    !Forgotten(s, path) && (steps == [] || NeverForgotten(cfg, Apply(cfg, s, steps[0]), steps[1..], path))
  }

  ghost predicate NoneForgets(cfg: Config, s: System, steps: seq<Step>, path: string)
    requires ValidRun(cfg, s, steps)
    decreases |steps|
  {
    steps == [] || (!Forgets(s, steps[0], path) && NoneForgets(cfg, Apply(cfg, s, steps[0]), steps[1..], path))
  }

  lemma {:induction false} NeverForgottenIff(cfg: Config, s: System, steps: seq<Step>, path: string)
    requires ValidRun(cfg, s, steps) && !Forgotten(s, path)
    ensures NeverForgotten(cfg, s, steps, path) <==> NoneForgets(cfg, s, steps, path)
    decreases |steps|
  {
    hide Enabled, Apply, Forgotten, Forgets;
    if steps != [] {
      ForgottenExactlyBy(cfg, s, steps[0], path);
      if !Forgets(s, steps[0], path) {
        NeverForgottenIff(cfg, Apply(cfg, s, steps[0]), steps[1..], path);
      }
    }
  }

  /** No run forgets a retry exactly as long as the last worker to mind it does not die. */
  lemma {:induction false} NoForgottenRetry(cfg: Config, n: nat, clock: real, steps: seq<Step>, path: string)
    requires ValidRun(cfg, Start(n, clock), steps)
    ensures NeverForgotten(cfg, Start(n, clock), steps, path) <==> NoneForgets(cfg, Start(n, clock), steps, path)
  {
    NeverForgottenIff(cfg, Start(n, clock), steps, path);
  }

  /** Nobody sleeps for more than the longest wait, or not at all. */
  ghost predicate SleepsInBounds(s: System) {
    forall w :: 0 <= w < |s.workers| && s.workers[w].Waiting? ==>
      s.workers[w].since + SHORTEST_WAIT <= s.workers[w].until <= s.workers[w].since + LONGEST_WAIT
  }

  lemma {:induction false} SleepRun(cfg: Config, s: System, steps: seq<Step>)
    requires ValidRun(cfg, s, steps) && SleepsInBounds(s)
    ensures SleepsInBounds(After(cfg, s, steps))
    decreases |steps|
  {
    if steps != [] {
      SleepStep(cfg, s, steps[0]);
      hide Enabled, Apply, SleepsInBounds;
      SleepRun(cfg, Apply(cfg, s, steps[0]), steps[1..]);
    }
  }

  lemma SleepStep(cfg: Config, s: System, step: Step)
    requires Enabled(cfg, s, step) && SleepsInBounds(s)
    ensures SleepsInBounds(Apply(cfg, s, step))
  {
    hide DocumentRows, HasText, Without, FtsRowsFor, DeleteAll, EnqueueMany, RecordFailure, Publish, ClaimPath;
  }

  /** So whatever was lost or forgotten, a sleeping worker looks again after the longest wait. */
  lemma SleepIsBounded(cfg: Config, s: System, w: nat)
    requires Reachable(cfg, s) && w < |s.workers| && s.workers[w].Waiting?
    ensures s.workers[w].since + SHORTEST_WAIT <= s.workers[w].until <= s.workers[w].since + LONGEST_WAIT
  {
    var n: nat, clock, steps: seq<Step> :|
      n > 0 && ValidRun(cfg, Start(n, clock), steps) && s == After(cfg, Start(n, clock), steps);
    SleepRun(cfg, Start(n, clock), steps);
  }
}
