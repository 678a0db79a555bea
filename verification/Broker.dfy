/** The pipe broker: one instance of the pipe is served at a time, and the next is stood up
    before the served one is released. Every call the broker awaits may return, raise, or be
    where the task is cancelled; what was called is kept in a trace. */
module Broker {
  import opened Wrappers
  import Ledger
  import opened UncPath

  /** How an awaited call ends: a value, the broker's own error with an outcome, any other
      exception, or cancellation, which no handler of the broker catches. */
  datatype Call<+T> = Done(value: T) | Refused(outcome: string) | Raised | Cancelled

  /** Instances are numbered as they are created. A grant without an intent has an empty one. */
  datatype Event =
    | Created(instance: nat)
    | NotCreated
    | StopSeen
    | Redeemed(instance: nat, grant: Grant)
    | Resolved(instance: nat, row: Option<Ledger.FileInfo>)
    | SharesFetched(instance: nat, shares: seq<Share>)
    | Probed(instance: nat, path: string)
    | PathWritten(instance: nat, path: string)
    | ErrorWritten(instance: nat, outcome: string)
    | Reported(instance: nat, intent: string, outcome: string)
    | CloseTried(instance: nat)

  // ----- what a trace says -----

  ghost function CreatedCount(t: seq<Event>): nat {
    if t == [] then 0 else CreatedCount(t[..|t| - 1]) + if t[|t| - 1].Created? then 1 else 0
  }

  /** The instances created and not yet asked to close. */
  ghost function OpenAfter(t: seq<Event>): set<nat> {
    if t == [] then {}
    else
      var before := OpenAfter(t[..|t| - 1]);
      match t[|t| - 1]
      case Created(n) => before + {n}
      case CloseTried(n) => before - {n}
      case _ => before
  }

  /** The only reasons to leave the name without an instance. */
  ghost predicate Excused(t: seq<Event>) {
    StopSeen in t || NotCreated in t
  }

  ghost predicate NameHeldNow(t: seq<Event>) {
    CreatedCount(t) > 0 && !Excused(t) ==> OpenAfter(t) != {}
  }

  /** At every moment from the first creation on, an instance is open, unless the broker was
      told to stop or could not create a replacement. */
  ghost predicate NameHeld(t: seq<Event>) {
    forall k :: 0 <= k <= |t| ==> NameHeldNow(t[..k])
  }

  /** Creations are numbered in order, and only an open instance is asked to close. */
  ghost predicate WellFormed(t: seq<Event>) {
    && (forall k :: 0 <= k < |t| && t[k].Created? ==> t[k].instance == CreatedCount(t[..k]))
    && (forall k :: 0 <= k < |t| && t[k].CloseTried? ==> t[k].instance in OpenAfter(t[..k]))
  }

  /** The calls that must lead up to writing a path: the intent was redeemed, its row resolved,
      the shares fetched, validation released this very path, and the client may read it. */
  ghost predicate JustifiedAt(t: seq<Event>, k: nat, fold: char -> string)
    requires k < |t| && t[k].PathWritten?
  {
    var i, p := t[k].instance, t[k].path;
    && k >= 4
    && t[k - 1] == Probed(i, p)
    && t[k - 2].SharesFetched? && t[k - 2].instance == i
    && t[k - 3].Resolved? && t[k - 3].instance == i
    && t[k - 4].Redeemed? && t[k - 4].instance == i
    && ValidateResolvedFile(t[k - 3].row, t[k - 4].grant, t[k - 2].shares, fold) == Success(p)
  }

  ghost predicate PathsJustified(t: seq<Event>, fold: char -> string) {
    forall k :: 0 <= k < |t| && t[k].PathWritten? ==> JustifiedAt(t, k, fold)
  }

  /** A file is reported as opened or shown only right after its path was written. */
  ghost predicate SuccessJustified(t: seq<Event>) {
    forall k :: 0 <= k < |t| && t[k].Reported? && t[k].outcome in {"opened", "shown"} ==>
      k > 0 && t[k - 1].PathWritten? && t[k - 1].instance == t[k].instance
  }

  ghost predicate Good(t: seq<Event>, fold: char -> string) {
    NameHeld(t) && WellFormed(t) && PathsJustified(t, fold) && SuccessJustified(t)
  }

  /** The intents redeemed, with the instance each was redeemed on. */
  ghost function Owed(t: seq<Event>): seq<(nat, string)> {
    if t == [] then []
    else
      var last := t[|t| - 1];
      Owed(t[..|t| - 1]) + if last.Redeemed? && last.grant.intentId != "" then [(last.instance, last.grant.intentId)] else []
  }

  /** The intents an outcome was reported for. */
  ghost function Paid(t: seq<Event>): seq<(nat, string)> {
    if t == [] then []
    else
      var last := t[|t| - 1];
      Paid(t[..|t| - 1]) + if last.Reported? then [(last.instance, last.intent)] else []
  }

  // ----- one more event -----

  ghost predicate Allowed(t: seq<Event>, e: Event, fold: char -> string) {
    match e
    case Created(n) => n == CreatedCount(t)
    case CloseTried(n) => n in OpenAfter(t) && (Excused(t) || OpenAfter(t) - {n} != {})
    case PathWritten(_, _) => JustifiedAt(t + [e], |t|, fold)
    case Reported(i, _, outcome) =>
      outcome in {"opened", "shown"} ==> t != [] && t[|t| - 1].PathWritten? && t[|t| - 1].instance == i
    case _ => true
  }

  lemma {:induction false} LastEvent(t: seq<Event>, e: Event)
    ensures CreatedCount(t + [e]) == CreatedCount(t) + if e.Created? then 1 else 0
    ensures OpenAfter(t + [e]) == if e.Created? then OpenAfter(t) + {e.instance}
                                  else if e.CloseTried? then OpenAfter(t) - {e.instance} else OpenAfter(t)
    ensures Excused(t + [e]) <==> Excused(t) || e.StopSeen? || e.NotCreated?
  {
    assert (t + [e])[..|t|] == t;
  }

  lemma {:induction false} LastAccount(t: seq<Event>, e: Event)
    ensures Owed(t + [e]) == Owed(t) + if e.Redeemed? && e.grant.intentId != "" then [(e.instance, e.grant.intentId)] else []
    ensures Paid(t + [e]) == Paid(t) + if e.Reported? then [(e.instance, e.intent)] else []
  {
    assert (t + [e])[..|t|] == t;
  }

  lemma NameStaysHeld(t: seq<Event>, e: Event, fold: char -> string)
    requires NameHeld(t) && Allowed(t, e, fold)
    ensures NameHeld(t + [e])
  {
    LastEvent(t, e);
    var now := t + [e];
    assert NameHeldNow(t) by {
      assert t[..|t|] == t;
    }
    assert NameHeldNow(now);
    hide NameHeldNow;
    forall k | 0 <= k <= |now|
      ensures NameHeldNow(now[..k])
    {
      if k <= |t| {
        assert now[..k] == t[..k];
      } else {
        assert now[..k] == now;
      }
    }
  }

  lemma StaysWellFormed(t: seq<Event>, e: Event, fold: char -> string)
    requires WellFormed(t) && Allowed(t, e, fold)
    ensures WellFormed(t + [e])
  {
    hide OpenAfter, CreatedCount, Excused, JustifiedAt;
    var now := t + [e];
    forall k | 0 <= k < |now|
      ensures now[k].Created? ==> now[k].instance == CreatedCount(now[..k])
      ensures now[k].CloseTried? ==> now[k].instance in OpenAfter(now[..k])
    {
      if k < |t| {
        assert now[..k] == t[..k];
      } else {
        assert now[..k] == t;
      }
    }
  }

  lemma StaysJustified(t: seq<Event>, e: Event, fold: char -> string)
    requires PathsJustified(t, fold) && SuccessJustified(t) && Allowed(t, e, fold)
    ensures PathsJustified(t + [e], fold) && SuccessJustified(t + [e])
  {
    hide OpenAfter, CreatedCount, Excused, ValidateResolvedFile;
    var now := t + [e];
    forall k | 0 <= k < |now| && now[k].PathWritten?
      ensures JustifiedAt(now, k, fold)
    {
      if k < |t| {
        assert JustifiedAt(t, k, fold);
      }
    }
  }

  lemma StaysGood(t: seq<Event>, e: Event, fold: char -> string)
    requires Good(t, fold) && Allowed(t, e, fold)
    ensures Good(t + [e], fold)
  {
    NameStaysHeld(t, e, fold);
    StaysWellFormed(t, e, fold);
    StaysJustified(t, e, fold);
  }

  lemma {:induction false} OpenIsCreated(t: seq<Event>, n: nat)
    requires WellFormed(t) && n in OpenAfter(t)
    ensures n < CreatedCount(t)
  {
    var init, last := t[..|t| - 1], t[|t| - 1];
    PrefixWellFormed(t, |t| - 1);
    if last != Created(n) {
      OpenIsCreated(init, n);
    }
  }

  lemma PrefixWellFormed(t: seq<Event>, n: nat)
    requires WellFormed(t) && n <= |t|
    ensures WellFormed(t[..n])
  {
    hide OpenAfter, CreatedCount;
    forall k | 0 <= k < n
      ensures t[..n][..k] == t[..k]
    {}
  }

  /** Once an instance has been asked to close it is not open again. */
  lemma {:induction false} ClosedForGood(t: seq<Event>, j: nat)
    requires WellFormed(t) && j < |t| && t[j].CloseTried?
    ensures t[j].instance !in OpenAfter(t) && t[j].instance < CreatedCount(t)
  {
    var init := t[..|t| - 1];
    PrefixWellFormed(t, |t| - 1);
    if j == |t| - 1 {
      OpenIsCreated(init, t[j].instance);
    } else {
      ClosedForGood(init, j);
    }
  }

  /** No instance is asked to close twice. */
  lemma ClosedAtMostOnce(t: seq<Event>, j: nat, k: nat)
    requires WellFormed(t) && j < k < |t| && t[j].CloseTried? && t[k].CloseTried?
    ensures t[j].instance != t[k].instance
  {
    hide OpenAfter;
    PrefixWellFormed(t, k);
    ClosedForGood(t[..k], j);
  }

  /** Every created instance is open or was asked to close. */
  lemma {:induction false} OpenOrClosed(t: seq<Event>, n: nat)
    requires WellFormed(t) && n < CreatedCount(t)
    ensures n in OpenAfter(t) || CloseTried(n) in t
  {
    if t != [] {
      var init, last := t[..|t| - 1], t[|t| - 1];
      assert t == init + [last];
      PrefixWellFormed(t, |t| - 1);
      if n < CreatedCount(init) {
        OpenOrClosed(init, n);
      }
    }
  }

  ghost predicate ClosedOnce(t: seq<Event>, n: nat) {
    exists k :: 0 <= k < |t| && t[k] == CloseTried(n) && forall j :: 0 <= j < |t| && t[j] == CloseTried(n) ==> j == k
  }

  /** When nothing is left open, every instance created was asked to close exactly once. */
  lemma {:induction false} ClosedExactlyOnce(t: seq<Event>, n: nat)
    requires WellFormed(t) && OpenAfter(t) == {} && n < CreatedCount(t)
    ensures ClosedOnce(t, n)
  {
    OpenOrClosed(t, n);
    var k :| 0 <= k < |t| && t[k] == CloseTried(n);
    hide OpenAfter, CreatedCount, WellFormed;
    forall j | 0 <= j < |t| && t[j] == CloseTried(n)
      ensures j == k
    {
      if j < k {
        ClosedAtMostOnce(t, j, k);
      } else if k < j {
        ClosedAtMostOnce(t, k, j);
      }
    }
  }

  // ----- the runs of the loop -----

  const ACTIONS: set<string> := {"open", "show"}

  const CLIENT_OUTCOMES: set<string> := {"opened", "shown", "access_denied", "moved", "unreachable"}

  const REFUSALS: set<string> := {"invalid", "failed", "moved", "access_denied", "offline", "unreachable"}

  datatype Phase = Serving | Reporting | Replacing | Closing | Leaving

  datatype End = NotStarted | Running(listener: nat) | Finished | CancelledIn(phase: Phase)

  /** What became of the replacement: skipped because the broker is to stop, made, not made,
      given up in the middle of its creation, or never tried. */
  datatype Replacement = Skipped | Made | Failed | GivenUp(made: bool) | NotTried

  /** One turn of the loop: the calls of the try's body, the error message written, the outcome
      reported, and where the task was cancelled, if anywhere. */
  datatype Turn = Turn(
    serving: seq<Event>,
    error: Option<string>,
    report: Option<string>,
    replacement: Replacement,
    cancelled: Option<Phase>)

  /** The calls of the body on instance i, up to wherever it ended. */
  ghost predicate ServedOn(i: nat, calls: seq<Event>, fold: char -> string) {
    && |calls| in {0, 1, 2, 3, 5}
    && (|calls| >= 1 ==> calls[0].Redeemed? && calls[0].instance == i)
    && (|calls| >= 2 ==> calls[1].Resolved? && calls[1].instance == i)
    && (|calls| >= 3 ==> calls[2].SharesFetched? && calls[2].instance == i)
    && (|calls| >= 4 ==>
          && calls[4].PathWritten?
          && calls[4].instance == i
          && calls[3] == Probed(i, calls[4].path)
          && ValidateResolvedFile(calls[1].row, calls[0].grant, calls[2].shares, fold) == Success(calls[4].path))
  }

  ghost function IntentOf(calls: seq<Event>): string {
    if calls != [] && calls[0].Redeemed? then calls[0].grant.intentId else ""
  }

  ghost function Answering(i: nat, calls: seq<Event>, error: Option<string>, report: Option<string>): seq<Event> {
    calls
    + (if error.Some? then [ErrorWritten(i, error.value)] else [])
    + (if report.Some? then [Reported(i, IntentOf(calls), report.value)] else [])
  }

  ghost function HandingOver(i: nat, replacement: Replacement): seq<Event> {
    match replacement
    case Skipped => [StopSeen, CloseTried(i)]
    case Made => [Created(i + 1), CloseTried(i)]
    case Failed => [NotCreated, CloseTried(i)]
    case GivenUp(made) => if made then [Created(i + 1)] else []
    case NotTried => []
  }

  ghost function EventsOf(i: nat, turn: Turn): seq<Event> {
    Answering(i, turn.serving, turn.error, turn.report) + HandingOver(i, turn.replacement)
  }

  /** The body got to its end, as far as the outcome reported tells. */
  ghost predicate BodyDone(turn: Turn) {
    turn.error.None? && |turn.serving| == 5 && (turn.report.Some? ==> turn.report.value in CLIENT_OUTCOMES)
  }

  ghost predicate BodyCancelled(turn: Turn) {
    turn.error.None? && (turn.report.Some? ==> turn.report.value == "failed")
  }

  /** The turns the loop can take on instance i. Without cancellation a turn runs to its end; a
      cancelled body still reports, replaces and closes, and the cancellation then leaves the
      loop, unless another one did so before. */
  ghost predicate Possible(i: nat, turn: Turn, fold: char -> string) {
    && ServedOn(i, turn.serving, fold)
    && (turn.report.Some? <==> IntentOf(turn.serving) != "")
    && (turn.error.Some? ==> turn.error.value in REFUSALS && (turn.report.Some? ==> turn.report == turn.error))
    && (turn.error.None? ==> BodyDone(turn) || BodyCancelled(turn))
    && (turn.replacement.NotTried? <==> turn.cancelled == Some(Reporting))
    && (turn.replacement.NotTried? ==> turn.report.Some?)
    && (turn.replacement.GivenUp? <==> turn.cancelled == Some(Replacing))
    && turn.cancelled != Some(Leaving)
    && (turn.cancelled.None? ==> turn.error.Some? || BodyDone(turn))
    && (turn.cancelled == Some(Serving) ==> turn.error.Some? || BodyCancelled(turn))
  }

  ghost predicate GoesOn(turn: Turn) {
    turn.cancelled.None? && turn.replacement.Made?
  }

  /** The first instance and the turns so far; turn k serves instance k. */
  ghost function TraceOf(turns: seq<Turn>): seq<Event> {
    if turns == [] then [Created(0)]
    else TraceOf(turns[..|turns| - 1]) + EventsOf(|turns| - 1, turns[|turns| - 1])
  }

  ghost predicate Plays(turns: seq<Turn>, fold: char -> string) {
    && (forall k :: 0 <= k < |turns| ==> Possible(k, turns[k], fold))
    && (forall k :: 0 <= k < |turns| - 1 ==> GoesOn(turns[k]))
  }

  ghost predicate AllGoOn(turns: seq<Turn>) {
    forall k :: 0 <= k < |turns| ==> GoesOn(turns[k])
  }

  /** A run of the broker: its turns, its trace and how it ended. */
  ghost predicate IsRun(turns: seq<Turn>, t: seq<Event>, end: End, fold: char -> string) {
    && Plays(turns, fold)
    && match end
       case NotStarted => turns == [] && t in {[], [NotCreated], [Created(0)]}
       case Running(listener) => AllGoOn(turns) && listener == |turns| && t == TraceOf(turns)
       case Finished =>
         if AllGoOn(turns) then t == TraceOf(turns) + [StopSeen, CloseTried(|turns|)]
         else turns[|turns| - 1].cancelled.None? && t in {TraceOf(turns), TraceOf(turns) + [StopSeen]}
       case CancelledIn(phase) =>
         if AllGoOn(turns) then phase == Leaving && t == TraceOf(turns) + [StopSeen, CloseTried(|turns|)]
         else turns[|turns| - 1].cancelled == Some(phase) && t == TraceOf(turns)
  }

  lemma {:induction false} OneMoreTurn(turns: seq<Turn>, turn: Turn, fold: char -> string)
    requires Plays(turns, fold) && AllGoOn(turns) && Possible(|turns|, turn, fold)
    ensures Plays(turns + [turn], fold) && TraceOf(turns + [turn]) == TraceOf(turns) + EventsOf(|turns|, turn)
    ensures AllGoOn(turns + [turn]) <==> GoesOn(turn)
  {
    hide Possible, GoesOn, EventsOf;
    var more := turns + [turn];
    assert more[..|more| - 1] == turns;
    assert more[|turns|] == turn;
    if GoesOn(turn) {
      forall k | 0 <= k < |more|
        ensures GoesOn(more[k])
      {
        assert k < |turns| ==> more[k] == turns[k];
      }
    }
  }

  ghost function Tested(t: seq<Event>, stop: bool): (tested: seq<Event>)
    ensures !stop ==> tested == t
  {
    if stop then t + [StopSeen] else t
  }

  lemma NoTurns(fold: char -> string)
    ensures Plays([], fold) && AllGoOn([]) && TraceOf([]) == [Created(0)]
  {}

  lemma WhenItGoesOn(turn: Turn)
    ensures GoesOn(turn) <==> turn.cancelled.None? && turn.replacement.Made?
  {}

  lemma {:induction false} NeutralEvents(t: seq<Event>, calls: seq<Event>)
    requires forall e :: e in calls ==> !e.Created? && !e.CloseTried?
    ensures OpenAfter(t + calls) == OpenAfter(t)
  {
    if calls == [] {
      assert t + calls == t;
    } else {
      var init, last := calls[..|calls| - 1], calls[|calls| - 1];
      assert t + calls == (t + init) + [last];
      NeutralEvents(t, init);
      LastEvent(t + init, last);
    }
  }

  /** What one turn on instance i leaves open. */
  ghost function LeftOpen(i: nat, turn: Turn): set<nat> {
    match turn.replacement
    case Skipped | Failed => {}
    case Made => {i + 1}
    case GivenUp(made) => if made then {i, i + 1} else {i}
    case NotTried => {i}
  }

  lemma {:induction false} TurnLeavesOpen(t: seq<Event>, i: nat, turn: Turn, fold: char -> string)
    requires OpenAfter(t) == {i} && Possible(i, turn, fold)
    ensures OpenAfter(t + EventsOf(i, turn)) == LeftOpen(i, turn)
  {
    hide OpenAfter;
    var before := t + Answering(i, turn.serving, turn.error, turn.report);
    AnsweringIsNeutral(i, turn, fold);
    NeutralEvents(t, Answering(i, turn.serving, turn.error, turn.report));
    var all := t + EventsOf(i, turn);
    hide Possible, Answering;
    match turn.replacement {
      case Skipped =>
        LastTwo(before, StopSeen, CloseTried(i), all);
      case Made =>
        LastTwo(before, Created(i + 1), CloseTried(i), all);
      case Failed =>
        LastTwo(before, NotCreated, CloseTried(i), all);
      case GivenUp(made) =>
        assert all == before + (if made then [Created(i + 1)] else []);
        if made {
          LastEvent(before, Created(i + 1));
          assert {i} + {i + 1} == {i, i + 1};
        } else {
          assert all == before;
        }
      case NotTried =>
        assert all == before;
    }
  }

  lemma {:induction false} AnsweringIsNeutral(i: nat, turn: Turn, fold: char -> string)
    requires Possible(i, turn, fold)
    ensures forall e :: e in Answering(i, turn.serving, turn.error, turn.report) ==> !e.Created? && !e.CloseTried?
  {
    hide ValidateResolvedFile, IntentOf, BodyDone, BodyCancelled;
    ServedIsNeutral(i, turn.serving, fold);
    hide ServedOn;
  }

  lemma {:induction false} ServedIsNeutral(i: nat, calls: seq<Event>, fold: char -> string)
    requires ServedOn(i, calls, fold)
    ensures forall e :: e in calls ==> !e.Created? && !e.CloseTried?
  {
    hide ValidateResolvedFile;
    forall k | 0 <= k < |calls|
      ensures !calls[k].Created? && !calls[k].CloseTried?
    {}
  }

  lemma {:induction false} LastTwo(t: seq<Event>, d: Event, e: Event, all: seq<Event>)
    requires all == t + [d, e] && e.CloseTried? && !d.CloseTried?
    ensures OpenAfter(all) == (if d.Created? then OpenAfter(t) + {d.instance} else OpenAfter(t)) - {e.instance}
  {
    hide OpenAfter;
    LastEvent(t, d);
    LastEvent(t + [d], e);
    assert t + [d] + [e] == all;
  }

  lemma {:induction false} RunOpens(turns: seq<Turn>, fold: char -> string)
    requires Plays(turns, fold)
    ensures OpenAfter(TraceOf(turns)) == if turns == [] then {0} else LeftOpen(|turns| - 1, turns[|turns| - 1])
  {
    hide Possible, EventsOf, OpenAfter;
    if turns == [] {
      assert OpenAfter(TraceOf(turns)) == {0} by {
        LastEvent([], Created(0));
        assert [] + [Created(0)] == [Created(0)];
        NothingYet(fold);
      }
    } else {
      var init, last := turns[..|turns| - 1], turns[|turns| - 1];
      RunOpens(init, fold);
      if init != [] {
        assert GoesOn(turns[|init| - 1]);
      }
      TurnLeavesOpen(TraceOf(init), |init|, last, fold);
    }
  }

  lemma {:induction false} ClosesOwn(i: nat, turn: Turn, n: nat, fold: char -> string)
    requires Possible(i, turn, fold) && n != i
    ensures CloseTried(n) !in EventsOf(i, turn)
  {
    AnsweringIsNeutral(i, turn, fold);
    hide Possible, Answering;
  }

  /** No turn closes an instance after its own. */
  lemma {:induction false} LaterNotClosed(turns: seq<Turn>, n: nat, fold: char -> string)
    requires Plays(turns, fold) && n >= |turns|
    ensures CloseTried(n) !in TraceOf(turns)
  {
    hide Possible, EventsOf, GoesOn;
    if turns != [] {
      var init, last := turns[..|turns| - 1], turns[|turns| - 1];
      LaterNotClosed(init, n, fold);
      ClosesOwn(|init|, last, n, fold);
    }
  }

  /** A run cancelled before the loop was left keeps an instance open unless no replacement was
      wanted or none could be made. A replacement that was made is never closed, so the name
      stays taken by an instance nobody serves. */
  lemma {:induction false} CancelledRunLeavesOpen(turns: seq<Turn>, t: seq<Event>, phase: Phase, fold: char -> string)
    requires IsRun(turns, t, CancelledIn(phase), fold) && phase != Leaving
    ensures var last := turns[|turns| - 1];
      && (OpenAfter(t) == {} <==> last.replacement in {Skipped, Failed})
      && (last.replacement == Made ==> Created(|turns|) in t && OpenAfter(t) == {|turns|} && !ClosedOnce(t, |turns|))
  {
    hide Possible, OpenAfter;
    RunOpens(turns, fold);
    LaterNotClosed(turns, |turns|, fold);
  }

  const CANCELLED_WAITING := Turn([], None, None, Made, Some(Serving))

  lemma CancelledWaiting(fold: char -> string)
    ensures Possible(0, CANCELLED_WAITING, fold) && !GoesOn(CANCELLED_WAITING)
    ensures EventsOf(0, CANCELLED_WAITING) == [Created(1), CloseTried(0)]
  {}

  lemma OneTurn(turn: Turn)
    requires !GoesOn(turn)
    ensures !AllGoOn([turn])
  {
    assert [turn][0] == turn;
  }

  /** The shortest of them: cancelled while it waits for its first client. */
  lemma CancellationLeavesReplacementOpen(fold: char -> string)
    ensures var turns, t := [CANCELLED_WAITING], [Created(0), Created(1), CloseTried(0)];
      IsRun(turns, t, CancelledIn(Serving), fold) && OpenAfter(t) == {1} && !ClosedOnce(t, 1)
  {
    hide OpenAfter, ClosedOnce, Possible, GoesOn, EventsOf, Plays, AllGoOn, TraceOf;
    var none: seq<Turn> := [];
    NoTurns(fold);
    CancelledWaiting(fold);
    OneMoreTurn(none, CANCELLED_WAITING, fold);
    OneTurn(CANCELLED_WAITING);
    assert none + [CANCELLED_WAITING] == [CANCELLED_WAITING];
    assert TraceOf([CANCELLED_WAITING]) == [Created(0), Created(1), CloseTried(0)];
    CancelledRunLeavesOpen([CANCELLED_WAITING], TraceOf([CANCELLED_WAITING]), Serving, fold);
  }

  // ----- the calls -----

  datatype Request = Request(action: string, opaqueHandle: string)

  /** What the account of a trace says: who is open, what was created, what is owed and paid. */
  datatype Account = Account(open: set<nat>, created: nat, excused: bool, owed: seq<(nat, string)>, paid: seq<(nat, string)>)

  ghost function AccountOf(t: seq<Event>): Account {
    Account(OpenAfter(t), CreatedCount(t), Excused(t), Owed(t), Paid(t))
  }

  /** The operating system, the service, the ledger and the stop event. */
  class World {
    ghost var trace: seq<Event>
    var created: nat
    var stopping: bool
    const fold: char -> string

    constructor (fold: char -> string)
      ensures trace == [] && created == 0 && !stopping && this.fold == fold
    {
      this.fold := fold;
      trace, created, stopping := [], 0, false;
    }

    ghost predicate Valid()
      reads this
    {
      Good(trace, fold) && created == CreatedCount(trace)
    }

    /** Reads the stop event, which is never cleared. */
    method StopIsSet() returns (set_: bool)
      requires Valid()
      modifies this
      ensures Valid()
      ensures set_ == stopping && (old(stopping) ==> stopping)
      ensures trace == old(trace) + if set_ then [StopSeen] else []
      ensures AccountOf(trace) == AccountOf(old(trace)).(excused := old(Excused(trace)) || set_)
    {
      hide Good, OpenAfter, CreatedCount, Excused, Owed, Paid;
      if !stopping {
        stopping := *;
      }
      set_ := stopping;
      if set_ {
        LastEvent(trace, StopSeen);
        LastAccount(trace, StopSeen);
        StaysGood(trace, StopSeen, fold);
        trace := trace + [StopSeen];
      }
    }

    /** A cancelled creation may still go through, on a thread nobody waits for. */
    method CreatePipe() returns (r: Call<nat>)
      requires Valid()
      modifies this`trace, this`created
      ensures Valid()
      ensures !r.Refused? && (r.Done? ==> r.value == old(created) && created == old(created) + 1)
      ensures r.Done? ==> trace == old(trace) + [Created(old(created))]
      ensures r.Raised? ==> trace == old(trace) + [NotCreated]
      ensures r.Cancelled? ==> trace == old(trace) || trace == old(trace) + [Created(old(created))]
      ensures var was, now := AccountOf(old(trace)), AccountOf(trace);
        match r
        case Done(n) => n == old(created) && now == was.(open := was.open + {n}, created := was.created + 1)
        case Cancelled => now == was || now == was.(open := was.open + {old(created)}, created := was.created + 1)
        case _ => now == was.(excused := true)
    {
      hide Good, OpenAfter, CreatedCount, Excused, Owed, Paid;
      var ok: bool, cancelled: bool := *, *;
      if ok {
        LastEvent(trace, Created(created));
        LastAccount(trace, Created(created));
        StaysGood(trace, Created(created), fold);
        trace := trace + [Created(created)];
        created := created + 1;
        r := if cancelled then Cancelled else Done(created - 1);
      } else if cancelled {
        r := Cancelled;
      } else {
        LastEvent(trace, NotCreated);
        LastAccount(trace, NotCreated);
        StaysGood(trace, NotCreated, fold);
        trace := trace + [NotCreated];
        r := Raised;
      }
    }

    method ClosePipe(instance: nat) returns (r: Call<()>)
      requires Valid() && instance in OpenAfter(trace)
      requires Excused(trace) || OpenAfter(trace) - {instance} != {}
      modifies this`trace
      ensures Valid() && !r.Refused?
      ensures trace == old(trace) + [CloseTried(instance)]
      ensures AccountOf(trace) == AccountOf(old(trace)).(open := old(OpenAfter(trace)) - {instance})
    {
      hide Good, OpenAfter, CreatedCount, Excused, Owed, Paid;
      LastEvent(trace, CloseTried(instance));
      LastAccount(trace, CloseTried(instance));
      StaysGood(trace, CloseTried(instance), fold);
      trace := trace + [CloseTried(instance)];
      r := Ending();
    }

    /** How a call without a value ends. */
    method Ending() returns (r: Call<()>)
      ensures !r.Refused?
    {
      var raised: bool, cancelled: bool := *, *;
      r := if cancelled then Cancelled else if raised then Raised else Done(());
    }

    method ReportOpenOutcome(ghost instance: nat, ghost intent: string, ghost outcome: string) returns (r: Call<()>)
      requires Valid()
      requires outcome in {"opened", "shown"} ==>
                 trace != [] && trace[|trace| - 1].PathWritten? && trace[|trace| - 1].instance == instance
      modifies this`trace
      ensures Valid() && !r.Refused?
      ensures trace == old(trace) + [Reported(instance, intent, outcome)]
      ensures AccountOf(trace) == AccountOf(old(trace)).(paid := old(Paid(trace)) + [(instance, intent)])
    {
      hide Good, OpenAfter, CreatedCount, Excused, Owed, Paid;
      LastEvent(trace, Reported(instance, intent, outcome));
      LastAccount(trace, Reported(instance, intent, outcome));
      StaysGood(trace, Reported(instance, intent, outcome), fold);
      trace := trace + [Reported(instance, intent, outcome)];
      r := Ending();
    }

    method RedeemOpenIntent(ghost instance: nat) returns (r: Call<Grant>)
      requires Valid()
      modifies this`trace
      ensures Valid() && !r.Refused?
      ensures trace == old(trace) + if r.Done? then [Redeemed(instance, r.value)] else []
      ensures AccountOf(trace) == AccountOf(old(trace)).(owed := old(Owed(trace))
                + if r.Done? && r.value.intentId != "" then [(instance, r.value.intentId)] else [])
    {
      hide Good, OpenAfter, CreatedCount, Excused, Owed, Paid;
      var ending := Ending();
      if !ending.Done? {
        r := if ending.Raised? then Raised else Cancelled;
        return;
      }
      var grant: Grant := *;
      LastEvent(trace, Redeemed(instance, grant));
      LastAccount(trace, Redeemed(instance, grant));
      StaysGood(trace, Redeemed(instance, grant), fold);
      trace := trace + [Redeemed(instance, grant)];
      r := Done(grant);
    }

    /** Records an event that neither opens, closes, redeems nor reports. */
    ghost method Note(e: Event)
      requires Valid() && (e.Resolved? || e.SharesFetched? || e.Probed? || e.PathWritten? || e.ErrorWritten?)
      requires e.PathWritten? ==> JustifiedAt(trace + [e], |trace|, fold)
      modifies this`trace
      ensures Valid() && trace == old(trace) + [e] && AccountOf(trace) == AccountOf(old(trace))
    {
      hide Good, OpenAfter, CreatedCount, Excused, Owed, Paid;
      LastEvent(trace, e);
      LastAccount(trace, e);
      StaysGood(trace, e, fold);
      trace := trace + [e];
    }
  }

  // ----- one request -----

  predicate IsOpaque(s: string) {
    && 20 <= |s| <= 256
    && forall k :: 0 <= k < |s| ==> 'A' <= s[k] <= 'Z' || 'a' <= s[k] <= 'z' || '0' <= s[k] <= '9' || s[k] == '_' || s[k] == '-'
  }

  /** An awaited call that may refuse with one of the outcomes its code raises. */
  method Await<T>(value: T, refusals: set<string>) returns (r: Call<T>)
    ensures r.Done? ==> r.value == value
    ensures r.Refused? ==> r.outcome in refusals
  {
    var refused: bool, raised: bool, cancelled: bool := *, *, *;
    if cancelled {
      r := Cancelled;
    } else if raised {
      r := Raised;
    } else if refused && refusals != {} {
      var outcome :| outcome in refusals;
      r := Refused(outcome);
    } else {
      r := Done(value);
    }
  }

  /** How a call that did not return carries over to the caller. */
  function Unwound<T, U>(r: Call<T>): (u: Call<U>)
    requires !r.Done?
    ensures !u.Done? && (u.Refused? <==> r.Refused?) && (u.Cancelled? <==> r.Cancelled?)
    ensures u.Refused? ==> u.outcome == r.outcome
  {
    match r
    case Refused(outcome) => Refused(outcome)
    case Raised => Raised
    case Cancelled => Cancelled
  }

  lemma ValidationOutcomes(row: Option<Ledger.FileInfo>, g: Grant, shares: seq<Share>, fold: char -> string)
    ensures var v := ValidateResolvedFile(row, g, shares, fold);
      v.Failure? ==> v.error in REFUSALS
  {
    hide NormalizeUncPath, FirstShare;
  }

  /** Accepts a client and reads what it asks for. */
  method ReadRequest() returns (r: Call<Request>)
    ensures r.Done? ==> r.value.action in ACTIONS && IsOpaque(r.value.opaqueHandle)
    ensures r.Refused? ==> r.outcome in REFUSALS
  {
    var accepted := Await((), {"access_denied"});
    if !accepted.Done? {
      return Unwound(accepted);
    }
    var request: Request := *;
    r := Await(request, {"invalid"});
    if r.Done? && (request.action !in ACTIONS || !IsOpaque(request.opaqueHandle)) {
      r := Refused("invalid");
    }
  }

  /** Sends the path, which may fail half-way, and reads how the client fared with it. */
  method Acknowledgement() returns (r: Call<string>)
    ensures r.Done? ==> r.value in CLIENT_OUTCOMES
    ensures r.Refused? ==> r.outcome in REFUSALS
  {
    var written := Await((), {"invalid"});
    if !written.Done? {
      return Unwound(written);
    }
    var answer: string := *;
    r := Await(answer, {"invalid"});
    if r.Done? && answer !in CLIENT_OUTCOMES {
      r := Refused("failed");
    }
  }

  /** The body of the try: from accepting a client to reading how the file was opened. */
  method ServeRequest(w: World, i: nat) returns (r: Call<string>, intent: string, ghost calls: seq<Event>)
    requires w.Valid()
    modifies w`trace
    ensures w.Valid() && w.trace == old(w.trace) + calls && ServedOn(i, calls, w.fold) && intent == IntentOf(calls)
    ensures r.Done? ==> |calls| == 5
    ensures AccountOf(w.trace) == AccountOf(old(w.trace)).(owed := old(Owed(w.trace)) + if intent != "" then [(i, intent)] else [])
    ensures r.Done? ==> w.trace != [] && w.trace[|w.trace| - 1].PathWritten? && w.trace[|w.trace| - 1].instance == i
    ensures r.Done? ==> r.value in CLIENT_OUTCOMES
    ensures r.Refused? ==> r.outcome in REFUSALS
  {
    hide Good, OpenAfter, CreatedCount, Excused, Owed, Paid, ValidateResolvedFile, ServedOn, IntentOf;
    NothingServed(i, w.fold);
    intent, calls := "", [];
    var request := ReadRequest();
    if !request.Done? {
      return Unwound(request), intent, calls;
    }
    var redeemed := w.RedeemOpenIntent(i);
    if !redeemed.Done? {
      return Unwound(redeemed), intent, calls;
    }
    var grant := redeemed.value;
    intent, calls := grant.intentId, [Redeemed(i, grant)];
    var found: Option<Ledger.FileInfo>, provided: seq<Share> := *, *;
    ServedSoFar(i, grant, found, provided, w.fold);
    var row := Await(found, {});
    if !row.Done? {
      return Unwound(row), intent, calls;
    }
    w.Note(Resolved(i, row.value));
    calls := [Redeemed(i, grant), Resolved(i, found)];
    var shares := Await(provided, {});
    if !shares.Done? {
      return Unwound(shares), intent, calls;
    }
    w.Note(SharesFetched(i, shares.value));
    calls := [Redeemed(i, grant), Resolved(i, found), SharesFetched(i, provided)];
    var path := ValidateResolvedFile(row.value, grant, shares.value, w.fold);
    if path.Failure? {
      ValidationOutcomes(row.value, grant, shares.value, w.fold);
      return Refused(path.error), intent, calls;
    }
    var probed := Await((), {"access_denied", "moved", "unreachable"});
    if !probed.Done? {
      return Unwound(probed), intent, calls;
    }
    w.Note(Probed(i, path.value));
    assert JustifiedAt(w.trace + [PathWritten(i, path.value)], |w.trace|, w.fold);
    w.Note(PathWritten(i, path.value));
    calls := calls + [Probed(i, path.value), PathWritten(i, path.value)];
    ServedToTheEnd(i, grant, found, provided, path.value, calls, w.fold);
    r := Acknowledgement();
  }

  lemma NothingServed(i: nat, fold: char -> string)
    ensures ServedOn(i, [], fold) && IntentOf([]) == ""
  {}

  lemma ServedSoFar(i: nat, grant: Grant, row: Option<Ledger.FileInfo>, shares: seq<Share>, fold: char -> string)
    ensures var one, two, three := [Redeemed(i, grant)], [Redeemed(i, grant), Resolved(i, row)],
                                   [Redeemed(i, grant), Resolved(i, row), SharesFetched(i, shares)];
      && ServedOn(i, one, fold) && ServedOn(i, two, fold) && ServedOn(i, three, fold)
      && IntentOf(one) == IntentOf(two) == IntentOf(three) == grant.intentId
  {
    hide ValidateResolvedFile;
  }

  lemma ServedToTheEnd(i: nat, grant: Grant, row: Option<Ledger.FileInfo>, shares: seq<Share>, path: string, calls: seq<Event>,
                       fold: char -> string)
    requires calls == [Redeemed(i, grant), Resolved(i, row), SharesFetched(i, shares)] + [Probed(i, path), PathWritten(i, path)]
    requires ValidateResolvedFile(row, grant, shares, fold) == Success(path)
    ensures |calls| == 5 && ServedOn(i, calls, fold) && IntentOf(calls) == grant.intentId
  {
    hide ValidateResolvedFile;
  }

  // ----- the loop -----

  /** The exception handlers: tell the client, whatever becomes of the message. */
  method AnswerError(w: World, i: nat, r: Call<string>) returns (outcome: string, cancelled: bool)
    requires w.Valid()
    modifies w`trace
    ensures w.Valid() && AccountOf(w.trace) == AccountOf(old(w.trace))
    ensures w.trace == old(w.trace) + if r.Refused? || r.Raised? then [ErrorWritten(i, outcome)] else []
    ensures r.Done? ==> outcome == r.value && !cancelled
    ensures r.Refused? ==> outcome == r.outcome
    ensures r.Raised? ==> outcome == "unreachable"
    ensures r.Cancelled? ==> outcome == "failed" && cancelled
  {
    hide Good, OpenAfter, CreatedCount, Excused, Owed, Paid;
    cancelled := r.Cancelled?;
    match r {
      case Done(value) =>
        outcome := value;
        return;
      case Cancelled =>
        outcome := "failed";
        return;
      case Refused(refusal) => outcome := refusal;
      case Raised => outcome := "unreachable";
    }
    w.Note(ErrorWritten(i, outcome));
    var written := Await((), {"invalid"});
    cancelled := written.Cancelled?;
  }

  /** The body, its handlers and the report: what comes before the replacement. */
  method Answer(w: World, handle: nat) returns (interrupted: bool, stuck: bool, ghost turn: Turn)
    requires w.Valid() && Owed(w.trace) == Paid(w.trace)
    modifies w`trace
    ensures w.Valid() && Owed(w.trace) == Paid(w.trace)
    ensures OpenAfter(w.trace) == old(OpenAfter(w.trace)) && (Excused(w.trace) <==> old(Excused(w.trace)))
    ensures w.trace == old(w.trace) + Answering(handle, turn.serving, turn.error, turn.report)
    ensures ServedOn(handle, turn.serving, w.fold) && (turn.report.Some? <==> IntentOf(turn.serving) != "")
    ensures turn.error.Some? ==> turn.error.value in REFUSALS && (turn.report.Some? ==> turn.report == turn.error)
    ensures turn.error.None? ==> if interrupted then BodyCancelled(turn) else BodyDone(turn)
    ensures stuck ==> turn.report.Some?
  {
    hide Good, OpenAfter, CreatedCount, Excused, Owed, Paid, ServedOn, IntentOf;
    var r, intent, calls := ServeRequest(w, handle);
    var outcome;
    outcome, interrupted := AnswerError(w, handle, r);
    turn := Turn(calls, if r.Refused? || r.Raised? then Some(outcome) else None, if intent != "" then Some(outcome) else None,
                 NotTried, None);
    stuck := false;
    if intent != "" {
      var reported := w.ReportOpenOutcome(handle, intent, outcome);
      stuck := reported.Cancelled?;
    }
  }

  /** The replacement and the release of the served instance. */
  method HandOver(w: World, handle: nat, interrupted: bool)
    returns (listener: Option<nat>, cancelled: Option<Phase>, ghost replacement: Replacement)
    requires w.Valid() && OpenAfter(w.trace) == {handle} && !Excused(w.trace) && w.created == handle + 1
    modifies w
    ensures w.Valid() && Owed(w.trace) == old(Owed(w.trace)) && Paid(w.trace) == old(Paid(w.trace))
    ensures w.trace == old(w.trace) + HandingOver(handle, replacement)
    ensures !replacement.NotTried? && (replacement.GivenUp? <==> cancelled == Some(Replacing))
    ensures cancelled in {None, Some(Serving), Some(Replacing), Some(Closing)}
    ensures if interrupted then cancelled.Some? else cancelled != Some(Serving)
    ensures cancelled.None? ==> listener == if replacement.Made? then Some(handle + 1) else None
    ensures listener.Some? ==> w.created == handle + 2
    ensures cancelled.None? ==> OpenAfter(w.trace) == (if listener.Some? then {listener.value} else {})
    ensures cancelled.None? ==> (Excused(w.trace) <==> listener.None?)
    ensures cancelled.Some? ==> (OpenAfter(w.trace) == {} <==> cancelled.value in {Serving, Closing} && Excused(w.trace))
  {
    hide Good, OpenAfter, CreatedCount, Excused, Owed, Paid;
    listener, cancelled, replacement := None, None, Skipped;
    HandleIsOld(w.trace, handle, w.fold);
    var stop := w.StopIsSet();
    if !stop {
      var made := w.CreatePipe();
      match made {
        case Done(n) =>
          listener, replacement := Some(n), Made;
        case Cancelled =>
          cancelled, replacement := Some(Replacing), GivenUp(w.trace != old(w.trace));
          return;
        case _ =>
          replacement := Failed;
      }
    }
    var closed := w.ClosePipe(handle);
    if closed.Cancelled? {
      cancelled := Some(Closing);
    } else if interrupted {
      cancelled := Some(Serving);
    }
  }

  /** One turn of the loop, from the moment the listener becomes the handle served. */
  method ServeAndReplace(w: World, handle: nat) returns (listener: Option<nat>, cancelled: Option<Phase>, ghost turn: Turn)
    requires w.Valid() && OpenAfter(w.trace) == {handle} && !Excused(w.trace) && Owed(w.trace) == Paid(w.trace)
    requires w.created == handle + 1
    modifies w
    ensures w.Valid() && Owed(w.trace) == Paid(w.trace)
    ensures Possible(handle, turn, w.fold) && w.trace == old(w.trace) + EventsOf(handle, turn)
    ensures cancelled == turn.cancelled
    ensures cancelled.None? ==> listener == if turn.replacement.Made? then Some(handle + 1) else None
    ensures listener.Some? ==> w.created == handle + 2
    ensures cancelled.None? ==> OpenAfter(w.trace) == (if listener.Some? then {listener.value} else {})
    ensures cancelled.None? ==> (Excused(w.trace) <==> listener.None?)
    ensures cancelled.Some? ==> cancelled.value != Leaving
    ensures cancelled.Some? ==> (OpenAfter(w.trace) == {} <==> cancelled.value in {Serving, Closing} && Excused(w.trace))
  {
    hide Good, OpenAfter, CreatedCount, Excused, Owed, Paid, ServedOn, IntentOf, Answering, HandingOver;
    var interrupted, stuck;
    interrupted, stuck, turn := Answer(w, handle);
    if stuck {
      listener, cancelled := None, Some(Reporting);
      turn := turn.(replacement := NotTried, cancelled := cancelled);
      NothingHandedOver(handle);
      return;
    }
    ghost var replacement;
    listener, cancelled, replacement := HandOver(w, handle, interrupted);
    turn := turn.(replacement := replacement, cancelled := cancelled);
  }

  lemma NothingHandedOver(i: nat)
    ensures HandingOver(i, NotTried) == []
  {}

  lemma {:induction false} HandleIsOld(t: seq<Event>, handle: nat, fold: char -> string)
    requires Good(t, fold) && handle in OpenAfter(t)
    ensures handle < CreatedCount(t)
  {
    OpenIsCreated(t, handle);
  }

  /** What follows the loop: the listener that was not served any more is closed. */
  method LeaveLoop(w: World, listener: Option<nat>, ghost taken: seq<Turn>, ghost stop: bool) returns (end: End)
    requires w.Valid() && OpenAfter(w.trace) == (if listener.Some? then {listener.value} else {})
    requires listener.Some? ==> Excused(w.trace) && stop && AllGoOn(taken) && listener.value == |taken|
    requires listener.None? ==> !AllGoOn(taken) && taken[|taken| - 1].cancelled.None?
    requires Plays(taken, w.fold) && w.trace == Tested(TraceOf(taken), stop)
    modifies w`trace
    ensures w.Valid() && Owed(w.trace) == old(Owed(w.trace)) && Paid(w.trace) == old(Paid(w.trace))
    ensures IsRun(taken, w.trace, end, w.fold) && OpenAfter(w.trace) == {}
    ensures end == Finished || end == CancelledIn(Leaving)
  {
    hide Good, OpenAfter, CreatedCount, Excused, Owed, Paid, Plays, AllGoOn, TraceOf, Tested, IsRun;
    end := Finished;
    if listener.Some? {
      LoopLeft(taken, w.trace, w.fold);
      var closed := w.ClosePipe(listener.value);
      if closed.Cancelled? {
        end := CancelledIn(Leaving);
      }
    } else {
      EndsAt(taken, w.trace, Finished, stop, w.fold);
    }
  }

  /** The loop, from the first listener on. */
  method ServeAll(w: World, turns: nat) returns (end: End, ghost taken: seq<Turn>)
    requires w.Valid() && w.trace == TraceOf([]) && w.created == 1
    requires AccountOf(w.trace) == Account({0}, 1, false, [], [])
    modifies w
    ensures w.Valid() && Owed(w.trace) == Paid(w.trace)
    ensures IsRun(taken, w.trace, end, w.fold) && end != NotStarted
    ensures end == Finished ==> OpenAfter(w.trace) == {}
    ensures end.Running? ==> OpenAfter(w.trace) == {end.listener}
    ensures end.CancelledIn? ==>
      (OpenAfter(w.trace) == {} <==> end.phase == Leaving || (end.phase in {Serving, Closing} && Excused(w.trace)))
  {
    NoTurns(w.fold);
    hide Good, OpenAfter, CreatedCount, Excused, Owed, Paid, Possible, EventsOf, Plays, AllGoOn, TraceOf, GoesOn, Tested, IsRun;
    taken := [];
    var listener, left := Some(0), turns;
    var stop := w.StopIsSet();
    AfterTest(TraceOf(taken), stop, w.trace);
    while !stop && listener.Some?
      invariant w.Valid() && Owed(w.trace) == Paid(w.trace)
      invariant Plays(taken, w.fold) && (listener.Some? <==> AllGoOn(taken))
      invariant w.trace == Tested(TraceOf(taken), stop)
      invariant listener.None? ==> taken != [] && taken[|taken| - 1].cancelled.None?
      invariant listener.Some? ==> listener.value == |taken| && w.created == |taken| + 1
      invariant OpenAfter(w.trace) == if listener.Some? then {listener.value} else {}
      invariant listener.Some? ==> (Excused(w.trace) <==> stop)
      decreases left
    {
      if left == 0 {
        EndsAt(taken, w.trace, Running(listener.value), stop, w.fold);
        return Running(listener.value), taken;
      }
      left := left - 1;
      var cancelled;
      ghost var turn;
      listener, cancelled, turn := ServeAndReplace(w, listener.value);
      OneMoreTurn(taken, turn, w.fold);
      WhenItGoesOn(turn);
      assert AllGoOn(taken + [turn]) <==> cancelled.None? && listener.Some?;
      taken := taken + [turn];
      if cancelled.Some? {
        EndsAt(taken, w.trace, CancelledIn(cancelled.value), stop, w.fold);
        return CancelledIn(cancelled.value), taken;
      }
      stop := w.StopIsSet();
      AfterTest(TraceOf(taken), stop, w.trace);
    }
    end := LeaveLoop(w, listener, taken, stop);
  }

  /** The broker, observed after any number of turns. At all times the name is held, no path
      was written without its checks, and every redeemed intent was reported exactly once, in
      order. Nothing stays open when the loop ends; a cancelled task leaves an instance open
      except when it was cancelled while serving or closing with no replacement made, or on
      the way out. */
  method RunBroker(w: World, windows: bool, turns: nat) returns (end: End, ghost taken: seq<Turn>)
    requires w.trace == [] && w.created == 0
    modifies w
    ensures w.Valid() && Owed(w.trace) == Paid(w.trace)
    ensures IsRun(taken, w.trace, end, w.fold)
    ensures end == Finished ==> OpenAfter(w.trace) == {}
    ensures end.Running? ==> OpenAfter(w.trace) == {end.listener}
    ensures end.CancelledIn? ==>
      (OpenAfter(w.trace) == {} <==> end.phase == Leaving || (end.phase in {Serving, Closing} && Excused(w.trace)))
    ensures end == NotStarted ==> OpenAfter(w.trace) <= {0}
  {
    NothingYet(w.fold);
    NoTurns(w.fold);
    hide Good, OpenAfter, CreatedCount, Excused, Owed, Paid, Possible, EventsOf, Plays, AllGoOn, TraceOf, GoesOn, Tested, IsRun;
    taken := [];
    if !windows {
      EndsAt(taken, w.trace, NotStarted, false, w.fold);
      return NotStarted, taken;
    }
    var first := w.CreatePipe();
    if !first.Done? {
      EndsAt(taken, w.trace, NotStarted, false, w.fold);
      return NotStarted, taken;
    }
    end, taken := ServeAll(w, turns);
  }

  lemma AfterTest(t: seq<Event>, stop: bool, tested: seq<Event>)
    requires tested == t + if stop then [StopSeen] else []
    ensures tested == Tested(t, stop)
  {}

  lemma {:induction false} EndsAt(turns: seq<Turn>, t: seq<Event>, end: End, stop: bool, fold: char -> string)
    requires Plays(turns, fold)
    requires end == NotStarted ==> turns == [] && t in {[], [NotCreated], [Created(0)]}
    requires end.Running? ==> AllGoOn(turns) && end.listener == |turns|
    requires end == Finished ==> !AllGoOn(turns) && turns[|turns| - 1].cancelled.None?
    requires end.CancelledIn? ==> !AllGoOn(turns) && turns[|turns| - 1].cancelled == Some(end.phase)
    requires end != NotStarted ==> t == Tested(TraceOf(turns), end == Finished && stop)
    ensures IsRun(turns, t, end, fold)
  {
    hide Plays, AllGoOn, TraceOf;
  }

  lemma {:induction false} LoopLeft(turns: seq<Turn>, tested: seq<Event>, fold: char -> string)
    requires Plays(turns, fold) && AllGoOn(turns) && tested == Tested(TraceOf(turns), true)
    ensures IsRun(turns, tested + [CloseTried(|turns|)], Finished, fold)
    ensures IsRun(turns, tested + [CloseTried(|turns|)], CancelledIn(Leaving), fold)
  {
    hide Plays, AllGoOn, TraceOf;
    assert tested + [CloseTried(|turns|)] == TraceOf(turns) + [StopSeen, CloseTried(|turns|)];
  }

  lemma NothingYet(fold: char -> string)
    ensures Good([], fold) && AccountOf([]) == Account({}, 0, false, [], [])
  {}
}
