/** What reconciliation achieves: after one run the issues match the findings, and a second run
    has nothing to do, exactly when findings that share a fingerprint agree. */
module Convergence {
  import opened Wrappers
  import opened Findings
  import opened Reconcile

  /** Findings with one fingerprint want the same issue. Distinct fingerprints are a case of it. */
  ghost predicate Consistent(findings: seq<Finding>) {
    forall a, b :: a in findings && b in findings && a.fingerprint == b.fingerprint ==> SameIssue(a, b)
  }

  ghost predicate SameIssue(a: Finding, b: Finding) {
    && RenderTitle(a) == RenderTitle(b)
    && a.contentHash == b.contentHash
    && multiset(SeverityLabels(a)) == multiset(SeverityLabels(b))
  }

  /** The issue that stands for a finding: the first open one that carries its fingerprint. */
  ghost predicate Tracked(issues: seq<Issue>, f: Finding) {
    var found := FirstWith(Candidates(issues, f.fingerprint), true);
    found.Some? && UpToDate(found.value, f)
  }

  ghost predicate Settled(s: Store, findings: seq<Finding>, zapExitCode: int) {
    && (forall f :: f in findings ==> Tracked(s.issues, f))
    && (MayClose(findings, zapExitCode) ==> ResolvedNumbers(s.issues, findings) == {})
    && AlertNumbers(s.issues) == {}
  }

  // ----- how the requests change the candidates of a fingerprint -----

  lemma RenderedTracks(f: Finding, runUrl: string, i: Issue)
    requires i.body == RenderBody(f, runUrl) && i.title == RenderTitle(f) && i.labels == SeverityLabels(f)
    ensures forall fp :: Tracks(i, fp) <==> fp == f.fingerprint
    ensures UpToDate(i, f)
    ensures !i.pullRequest ==> Listed(i)
  {
    MarkersReadBack(f, runUrl);
    hide RenderBody, RenderTitle, Marker;
  }

  lemma {:induction false} RewriteOthers(issues: seq<Issue>, number: nat, reopen: bool, f: Finding, runUrl: string, fp: string)
    requires fp != f.fingerprint
    requires forall i :: i in issues && i.number == number ==> !Tracks(i, fp)
    ensures Candidates(RewriteIn(issues, number, reopen, RenderTitle(f), RenderBody(f, runUrl), SeverityLabels(f)), fp)
         == Candidates(issues, fp)
  {
    hide RenderTitle, RenderBody, SeverityLabels, Tracks, Listed;
    if issues != [] {
      var title, body, labels := RenderTitle(f), RenderBody(f, runUrl), SeverityLabels(f);
      RewriteOthers(issues[1..], number, reopen, f, runUrl, fp);
      RenderedTracks(f, runUrl, Rewritten(issues[0], reopen, title, body, labels));
      var head := if issues[0].number == number then Rewritten(issues[0], reopen, title, body, labels) else issues[0];
      var tail := RewriteIn(issues[1..], number, reopen, title, body, labels);
      assert ([head] + tail)[1..] == tail;
      assert issues[0] in issues;
    }
  }

  lemma {:induction false} CandidatesStep(head: Issue, tail: seq<Issue>, fp: string)
    ensures Candidates([head] + tail, fp) == (if Listed(head) && Tracks(head, fp) then [head] else []) + Candidates(tail, fp)
  {
    hide Listed, Tracks;
    assert ([head] + tail)[1..] == tail;
  }

  lemma {:induction false} RewriteOwn(issues: seq<Issue>, number: nat, reopen: bool, f: Finding, runUrl: string)
    requires forall i :: i in issues && i.number == number ==> Listed(i) && Tracks(i, f.fingerprint)
    ensures Candidates(RewriteIn(issues, number, reopen, RenderTitle(f), RenderBody(f, runUrl), SeverityLabels(f)), f.fingerprint)
         == RewriteIn(Candidates(issues, f.fingerprint), number, reopen, RenderTitle(f), RenderBody(f, runUrl), SeverityLabels(f))
  {
    hide RenderTitle, RenderBody, SeverityLabels, Tracks, Listed, Candidates, RewriteIn;
    var title, body, labels := RenderTitle(f), RenderBody(f, runUrl), SeverityLabels(f);
    if issues == [] {
      assert Candidates(issues, f.fingerprint) == [] && RewriteIn([], number, reopen, title, body, labels) == [] by {
        NothingTracked(f.fingerprint);
        NothingRewritten(number, reopen, title, body, labels);
      }
    } else {
      var head := if issues[0].number == number then Rewritten(issues[0], reopen, title, body, labels) else issues[0];
      var tail, rest := RewriteIn(issues[1..], number, reopen, title, body, labels), Candidates(issues[1..], f.fingerprint);
      RewriteOwn(issues[1..], number, reopen, f, runUrl);
      RewriteStep(issues[0], issues[1..], number, reopen, title, body, labels);
      RewriteStep(issues[0], rest, number, reopen, title, body, labels);
      if issues[0].number == number {
        RewrittenTracks(issues[0], reopen, f, runUrl);
      }
      CandidatesStep(head, tail, f.fingerprint);
      CandidatesStep(issues[0], issues[1..], f.fingerprint);
      assert issues == [issues[0]] + issues[1..];
      assert issues[0] in issues;
      assert [] + rest == rest;
      assert [] + Candidates(tail, f.fingerprint) == Candidates(tail, f.fingerprint);
    }
  }

  lemma {:induction false} NothingTracked(fp: string)
    ensures Candidates([], fp) == []
  {}

  lemma {:induction false} NothingRewritten(number: nat, reopen: bool, title: string, body: string, labels: seq<string>)
    ensures RewriteIn([], number, reopen, title, body, labels) == []
  {}

  lemma {:induction false} RewriteStep(head: Issue, tail: seq<Issue>, number: nat, reopen: bool, title: string, body: string,
                                       labels: seq<string>)
    ensures RewriteIn([head] + tail, number, reopen, title, body, labels)
         == [if head.number == number then Rewritten(head, reopen, title, body, labels) else head]
            + RewriteIn(tail, number, reopen, title, body, labels)
  {
    assert ([head] + tail)[1..] == tail;
  }

  lemma RewrittenTracks(i: Issue, reopen: bool, f: Finding, runUrl: string)
    requires Listed(i)
    ensures var r := Rewritten(i, reopen, RenderTitle(f), RenderBody(f, runUrl), SeverityLabels(f));
      Listed(r) && Tracks(r, f.fingerprint)
  {
    RenderedTracks(f, runUrl, Rewritten(i, reopen, RenderTitle(f), RenderBody(f, runUrl), SeverityLabels(f)));
    hide RenderBody, RenderTitle, Marker;
  }

  lemma {:induction false} FirstOpenRewritten(candidates: seq<Issue>, target: Issue, reopen: bool, title: string, body: string,
                                              labels: seq<string>)
    requires DistinctNumbers(candidates)
    requires FirstWith(candidates, true) == Some(target) || (reopen && FirstWith(candidates, true) == None && target in candidates)
    ensures FirstWith(RewriteIn(candidates, target.number, reopen, title, body, labels), true)
         == Some(Rewritten(target, reopen, title, body, labels))
  {
    FirstOpenIn(candidates);
    if candidates[0] == target {
      assert RewriteIn(candidates, target.number, reopen, title, body, labels)[0] == Rewritten(target, reopen, title, body, labels);
    } else {
      assert forall k :: 0 <= k < |candidates[1..]| ==> candidates[1..][k] == candidates[k + 1];
      assert target in candidates[1..];
      var k :| 0 <= k < |candidates[1..]| && candidates[1..][k] == target;
      assert candidates[0].number != target.number;
      FirstOpenRewritten(candidates[1..], target, reopen, title, body, labels);
      var tail := RewriteIn(candidates[1..], target.number, reopen, title, body, labels);
      assert ([candidates[0]] + tail)[1..] == tail;
    }
  }

  lemma {:induction false} FirstOpenIn(candidates: seq<Issue>)
    ensures forall open :: FirstWith(candidates, open).Some? ==>
      FirstWith(candidates, open).value in candidates && FirstWith(candidates, open).value.open == open
  {
    if candidates != [] {
      FirstOpenIn(candidates[1..]);
    }
  }

  // ----- the invariant over the findings -----

  /** The issue a finding's requests go to, taken from the listing. */
  ghost function TargetOf(candidates: seq<Issue>): Option<Issue> {
    if FirstWith(candidates, true).Some? then FirstWith(candidates, true) else FirstWith(candidates, false)
  }

  /** A fingerprint already handled: its first open issue is up to date, and is the one the
      listing led to, or a new one if the listing had none. */
  ghost predicate Handled(start: Store, issues: seq<Issue>, f: Finding) {
    var found := FirstWith(Candidates(issues, f.fingerprint), true);
    var target := TargetOf(Candidates(start.issues, f.fingerprint));
    && found.Some?
    && UpToDate(found.value, f)
    && if target.Some? then found.value.number == target.value.number else found.value.number >= start.next
  }

  ghost predicate Progress(start: Store, now: Store, done: seq<Finding>, fp: string) {
    && (forall f :: f in done && f.fingerprint == fp ==> Handled(start, now.issues, f))
    && ((forall f :: f in done ==> f.fingerprint != fp) ==> Candidates(now.issues, fp) == Candidates(start.issues, fp))
  }

  lemma NumberOwner(start: Store, now: Store, done: seq<Finding>, f: Finding)
    requires ValidStore(start) && ValidStore(now) && Progress(start, now, done, f.fingerprint)
    requires TargetOf(Candidates(start.issues, f.fingerprint)).Some?
    ensures var number := TargetOf(Candidates(start.issues, f.fingerprint)).value.number;
      && (forall i :: i in now.issues && i.number == number ==> Listed(i) && Tracks(i, f.fingerprint))
      && (exists i :: i in Candidates(now.issues, f.fingerprint) && i.number == number)
  {
    hide Listed, Tracks, Candidates, UpToDate;
    var target := TargetOf(Candidates(start.issues, f.fingerprint)).value;
    var owner: Issue;
    if g :| g in done && g.fingerprint == f.fingerprint {
      owner := FirstWith(Candidates(now.issues, f.fingerprint), true).value;
      FirstOpenIn(Candidates(now.issues, f.fingerprint));
    } else {
      owner := target;
      FirstOpenIn(Candidates(start.issues, f.fingerprint));
    }
    CandidateIn(now.issues, f.fingerprint, owner);
    forall i | i in now.issues && i.number == target.number
      ensures i == owner
    {
      SameNumberSameIssue(now.issues, i, owner);
    }
  }

  lemma OneFingerprint(i: Issue, a: string, b: string)
    requires Tracks(i, a) && Tracks(i, b)
    ensures a == b
  {}

  lemma {:induction false} OthersKeepCandidates(start: Store, now: Store, done: seq<Finding>, f: Finding,
                                                runUrl: string, fp: string)
    requires ValidStore(start) && ValidStore(now) && fp != f.fingerprint
    requires Progress(start, now, done, f.fingerprint)
    ensures Candidates(Perform(now, Candidates(start.issues, f.fingerprint), f, runUrl).issues, fp) == Candidates(now.issues, fp)
  {
    var candidates := Candidates(start.issues, f.fingerprint);
    var after := Perform(now, candidates, f, runUrl);
    hide Candidates, UpToDate, RenderTitle, RenderBody, SeverityLabels, Listed, Tracks, Progress, ValidStore, RewriteIn;
    match OutcomeFor(candidates, f) {
      case Unchanged =>
      case Created =>
        var added := after.issues[0];
        RenderedTracks(f, runUrl, added);
        CandidatesAppend([added], now.issues, fp);
        SingleCandidate(added, fp);
        NotTracked(added, fp);
      case Updated =>
        NumberOwner(start, now, done, f);
        NoneTracksBoth(now.issues, FirstWith(candidates, true).value.number, f.fingerprint, fp);
        RewriteOthers(now.issues, FirstWith(candidates, true).value.number, false, f, runUrl, fp);
      case Reopened =>
        NumberOwner(start, now, done, f);
        NoneTracksBoth(now.issues, FirstWith(candidates, false).value.number, f.fingerprint, fp);
        RewriteOthers(now.issues, FirstWith(candidates, false).value.number, true, f, runUrl, fp);
    }
  }

  lemma ProgressForOthers(start: Store, now: Store, done: seq<Finding>, f: Finding, runUrl: string, fp: string)
    requires ValidStore(start) && ValidStore(now) && fp != f.fingerprint
    requires Progress(start, now, done, f.fingerprint) && Progress(start, now, done, fp)
    ensures Progress(start, Perform(now, Candidates(start.issues, f.fingerprint), f, runUrl), done + [f], fp)
  {
    hide Candidates, Perform, Handled, ValidStore;
    OthersKeepCandidates(start, now, done, f, runUrl, fp);
    var after := Perform(now, Candidates(start.issues, f.fingerprint), f, runUrl);
    forall g | g in done + [f] && g.fingerprint == fp
      ensures Handled(start, after.issues, g)
    {
      assert g in done;
      HandledBySight(start, now.issues, after.issues, g);
    }
    assert forall g :: g in done ==> g in done + [f];
  }

  /** Only the candidates of a fingerprint decide whether it has been handled. */
  lemma {:induction false} HandledBySight(start: Store, issues: seq<Issue>, other: seq<Issue>, f: Finding)
    requires Handled(start, issues, f)
    requires Candidates(issues, f.fingerprint) == Candidates(other, f.fingerprint)
    ensures Handled(start, other, f)
  {
    hide Candidates, UpToDate, TargetOf, FirstWith;
  }

  lemma NotTracked(i: Issue, fp: string)
    requires !Tracks(i, fp)
    ensures Marker(i.body, FINGERPRINT_MARK) != Some(fp)
  {}

  lemma NoneTracksBoth(issues: seq<Issue>, number: nat, a: string, b: string)
    requires a != b && forall i :: i in issues && i.number == number ==> Listed(i) && Tracks(i, a)
    ensures forall i :: i in issues && i.number == number ==> !Tracks(i, b)
  {
    hide Listed;
  }

  lemma HandledBySame(start: Store, issues: seq<Issue>, f: Finding, g: Finding)
    requires Handled(start, issues, f) && SameIssue(f, g) && f.fingerprint == g.fingerprint
    ensures Handled(start, issues, g)
  {}

  lemma HandledAfterOwn(start: Store, now: Store, done: seq<Finding>, f: Finding, runUrl: string)
    requires ValidStore(start) && ValidStore(now) && now.next >= start.next && Consistent(done + [f])
    requires Progress(start, now, done, f.fingerprint)
    ensures Handled(start, Perform(now, Candidates(start.issues, f.fingerprint), f, runUrl).issues, f)
  {
    var candidates := Candidates(start.issues, f.fingerprint);
    var after := Perform(now, candidates, f, runUrl);
    hide Candidates, UpToDate, RenderTitle, RenderBody, SeverityLabels, Listed, Tracks;
    match OutcomeFor(candidates, f) {
      case Unchanged =>
        if g :| g in done && g.fingerprint == f.fingerprint {
          assert g in done + [f] && f in done + [f];
          HandledBySame(start, now.issues, g, f);
        }
      case Created =>
        var added := after.issues[0];
        RenderedTracks(f, runUrl, added);
        CandidatesAppend([added], now.issues, f.fingerprint);
        SingleTracked(added, f.fingerprint);
      case Updated =>
        OwnRewritten(start, now, done, f, runUrl, false);
      case Reopened =>
        OwnRewritten(start, now, done, f, runUrl, true);
    }
  }

  lemma {:induction false} SingleTracked(i: Issue, fp: string)
    requires Listed(i) && Tracks(i, fp)
    ensures Candidates([i], fp) == [i]
  {
    SingleCandidate(i, fp);
  }

  lemma OwnRewritten(start: Store, now: Store, done: seq<Finding>, f: Finding, runUrl: string, reopen: bool)
    requires ValidStore(start) && ValidStore(now)
    requires Progress(start, now, done, f.fingerprint)
    requires FirstWith(Candidates(start.issues, f.fingerprint), true).Some? == !reopen
    requires TargetOf(Candidates(start.issues, f.fingerprint)).Some?
    ensures var number := TargetOf(Candidates(start.issues, f.fingerprint)).value.number;
      Handled(start, Rewrite(now, number, reopen, RenderTitle(f), RenderBody(f, runUrl), SeverityLabels(f)).issues, f)
  {
    var startCandidates, candidates := Candidates(start.issues, f.fingerprint), Candidates(now.issues, f.fingerprint);
    var target := TargetOf(startCandidates).value;
    var title, body, labels := RenderTitle(f), RenderBody(f, runUrl), SeverityLabels(f);
    NumberOwner(start, now, done, f);
    RewriteOwn(now.issues, target.number, reopen, f, runUrl);
    CandidatesKeepOrder(now.issues, f.fingerprint);
    var current: Issue;
    if g :| g in done && g.fingerprint == f.fingerprint {
      current := FirstWith(candidates, true).value;
    } else {
      current := target;
      FirstOpenIn(candidates);
    }
    FirstOpenRewritten(candidates, current, reopen, title, body, labels);
    RenderedTracks(f, runUrl, Rewritten(current, reopen, title, body, labels));
    hide Candidates, UpToDate, RenderTitle, RenderBody, SeverityLabels, Listed, Tracks, DistinctNumbers;
    CandidateListed(now.issues, f.fingerprint, current);
  }

  lemma {:induction false} CandidateListed(issues: seq<Issue>, fp: string, i: Issue)
    ensures i in Candidates(issues, fp) ==> !i.pullRequest
  {
    CandidateIn(issues, fp, i);
  }

  lemma ProgressForOwn(start: Store, now: Store, done: seq<Finding>, f: Finding, runUrl: string)
    requires ValidStore(start) && ValidStore(now) && now.next >= start.next && Consistent(done + [f])
    requires Progress(start, now, done, f.fingerprint)
    ensures Progress(start, Perform(now, Candidates(start.issues, f.fingerprint), f, runUrl), done + [f], f.fingerprint)
  {
    hide Candidates, Perform, Handled, SameIssue, ValidStore;
    HandledAfterOwn(start, now, done, f, runUrl);
    var after := Perform(now, Candidates(start.issues, f.fingerprint), f, runUrl);
    assert f in done + [f];
    forall g | g in done + [f] && g.fingerprint == f.fingerprint
      ensures Handled(start, after.issues, g)
    {
      HandledBySame(start, after.issues, f, g);
    }
  }

  lemma {:induction false} AllHandled(start: Store, findings: seq<Finding>, runUrl: string, fp: string)
    requires ValidStore(start) && Consistent(findings)
    ensures Progress(start, PerformAll(start, start.issues, findings, runUrl), findings, fp)
  {
    hide Candidates, Perform, Handled, SameIssue;
    if findings != [] {
      var done, f := findings[..|findings| - 1], findings[|findings| - 1];
      assert findings == done + [f];
      assert forall g :: g in done ==> g in findings;
      var now := PerformAll(start, start.issues, done, runUrl);
      PerformAllValid(start, start.issues, done, runUrl);
      AllHandled(start, done, runUrl, fp);
      AllHandled(start, done, runUrl, f.fingerprint);
      if fp == f.fingerprint {
        ProgressForOwn(start, now, done, f, runUrl);
      } else {
        ProgressForOthers(start, now, done, f, runUrl, fp);
      }
    }
  }

  // ----- closing keeps what is tracked -----

  lemma {:induction false} CandidatesClosed(issues: seq<Issue>, numbers: set<nat>, note: string, fp: string)
    ensures Candidates(CloseIn(issues, numbers, note), fp) == CloseIn(Candidates(issues, fp), numbers, note)
  {
    if issues != [] {
      var head := if issues[0].number in numbers then Closed(issues[0], note) else issues[0];
      var tail := CloseIn(issues[1..], numbers, note);
      CandidatesClosed(issues[1..], numbers, note, fp);
      assert Listed(head) == Listed(issues[0]) && Tracks(head, fp) == Tracks(issues[0], fp);
      hide Listed, Tracks;
      assert ([head] + tail)[1..] == tail;
      var rest := Candidates(issues[1..], fp);
      assert ([issues[0]] + rest)[1..] == rest;
      assert [] + rest == rest && [] + Candidates(tail, fp) == Candidates(tail, fp);
    }
  }

  lemma {:induction false} FirstOpenStays(candidates: seq<Issue>, numbers: set<nat>, note: string)
    requires FirstWith(candidates, true).Some? && FirstWith(candidates, true).value.number !in numbers
    ensures FirstWith(CloseIn(candidates, numbers, note), true) == FirstWith(candidates, true)
  {
    if !candidates[0].open {
      FirstOpenStays(candidates[1..], numbers, note);
      var tail := CloseIn(candidates[1..], numbers, note);
      var head := if candidates[0].number in numbers then Closed(candidates[0], note) else candidates[0];
      assert ([head] + tail)[1..] == tail;
    }
  }

  lemma {:induction false} TrackedAfterClosing(issues: seq<Issue>, numbers: set<nat>, note: string, f: Finding)
    requires Tracked(issues, f) && FirstWith(Candidates(issues, f.fingerprint), true).value.number !in numbers
    ensures Tracked(CloseIn(issues, numbers, note), f)
  {
    hide UpToDate;
    CandidatesClosed(issues, numbers, note, f.fingerprint);
    FirstOpenStays(Candidates(issues, f.fingerprint), numbers, note);
  }

  lemma HandledNotResolved(start: Store, now: Store, findings: seq<Finding>, f: Finding)
    requires ValidStore(start) && f in findings && Handled(start, now.issues, f)
    ensures FirstWith(Candidates(now.issues, f.fingerprint), true).value.number !in ResolvedNumbers(start.issues, findings)
  {
    hide Candidates, UpToDate, Listed, Tracks;
    var number := FirstWith(Candidates(now.issues, f.fingerprint), true).value.number;
    if number in ResolvedNumbers(start.issues, findings) {
      var k :| 0 <= k < |start.issues| && Resolved(start.issues[k], findings) && start.issues[k].number == number;
      var fp :| Tracks(start.issues[k], fp) && !Present(findings, fp);
      var target := TargetOf(Candidates(start.issues, f.fingerprint));
      if target.Some? {
        FirstOpenIn(Candidates(start.issues, f.fingerprint));
        CandidateIn(start.issues, f.fingerprint, target.value);
        SameNumberSameIssue(start.issues, target.value, start.issues[k]);
        OneFingerprint(start.issues[k], fp, f.fingerprint);
        PresentIn(findings, f);
      }
      assert false;
    }
  }

  lemma PresentIn(findings: seq<Finding>, f: Finding)
    requires f in findings
    ensures Present(findings, f.fingerprint)
  {}

  lemma {:induction false} TrackedIsNoAlert(issues: seq<Issue>, f: Finding)
    requires Tracked(issues, f) && DistinctNumbers(issues)
    ensures FirstWith(Candidates(issues, f.fingerprint), true).value.number !in AlertNumbers(issues)
  {
    var found := FirstWith(Candidates(issues, f.fingerprint), true).value;
    FirstOpenIn(Candidates(issues, f.fingerprint));
    CandidateIn(issues, f.fingerprint, found);
    TitleIsNotAlert(f);
    hide Candidates, RenderTitle, Listed, Tracks, DistinctNumbers;
    forall k | 0 <= k < |issues| && ScanAlert(issues[k])
      ensures issues[k].number != found.number
    {
      var i := issues[k];
      if i.number == found.number {
        SameNumberSameIssue(issues, found, i);
      }
    }
  }

  lemma {:induction false} ResolvedBefore(issues: seq<Issue>, before: seq<Issue>, findings: seq<Finding>, k: nat)
    requires forall fp :: !Present(findings, fp) ==> Candidates(issues, fp) == Candidates(before, fp)
    requires k < |issues| && Resolved(issues[k], findings)
    ensures issues[k].number in ResolvedNumbers(before, findings)
  {
    hide Candidates;
    var fp :| Tracks(issues[k], fp) && !Present(findings, fp);
    CandidateIn(issues, fp, issues[k]);
    CandidateIn(before, fp, issues[k]);
    var m :| 0 <= m < |before| && before[m] == issues[k];
    assert Resolved(before[m], findings);
  }

  lemma {:induction false} ResolvedClosed(issues: seq<Issue>, before: seq<Issue>, findings: seq<Finding>, note: string)
    requires forall fp :: !Present(findings, fp) ==> Candidates(issues, fp) == Candidates(before, fp)
    ensures ResolvedNumbers(CloseIn(issues, ResolvedNumbers(before, findings), note), findings) == {}
  {
    var numbers := ResolvedNumbers(before, findings);
    var after := CloseIn(issues, numbers, note);
    hide Candidates, CloseIn;
    forall k | 0 <= k < |after|
      ensures !Resolved(after[k], findings)
    {
      CloseInAt(issues, numbers, note, k);
      if Resolved(issues[k], findings) {
        ResolvedBefore(issues, before, findings, k);
      }
    }
  }

  lemma {:induction false} ResolvedStaysNone(issues: seq<Issue>, numbers: set<nat>, findings: seq<Finding>, note: string)
    requires ResolvedNumbers(issues, findings) == {}
    ensures ResolvedNumbers(CloseIn(issues, numbers, note), findings) == {}
  {
    hide CloseIn;
    forall k | 0 <= k < |CloseIn(issues, numbers, note)|
      ensures !Resolved(CloseIn(issues, numbers, note)[k], findings)
    {
      CloseInAt(issues, numbers, note, k);
      var i := issues[k];
      assert Resolved(i, findings) ==> i.number in ResolvedNumbers(issues, findings);
    }
  }

  lemma {:induction false} AlertsClosed(issues: seq<Issue>, note: string)
    ensures AlertNumbers(CloseIn(issues, AlertNumbers(issues), note)) == {}
  {
    hide CloseIn;
    var after := CloseIn(issues, AlertNumbers(issues), note);
    forall k | 0 <= k < |after|
      ensures !ScanAlert(after[k])
    {
      CloseInAt(issues, AlertNumbers(issues), note, k);
      assert ScanAlert(issues[k]) ==> issues[k].number in AlertNumbers(issues);
    }
  }

  /** Convergence: one completed run, from any store, leaves every finding with an open issue
      that carries its title, content digest and labels, and closes what is gone. */
  lemma OneRunSettles(s: Store, findings: seq<Finding>, runUrl: string, zapExitCode: int)
    requires ValidStore(s) && Consistent(findings)
    ensures Settled(Reconciled(s, findings, runUrl, zapExitCode), findings, zapExitCode)
  {
    var performed := PerformAll(s, s.issues, findings, runUrl);
    var numbers := if MayClose(findings, zapExitCode) then ResolvedNumbers(s.issues, findings) else {};
    var closed := CloseIn(performed.issues, numbers, ResolvedNote(runUrl));
    var alerts := AlertNumbers(closed);
    var final := CloseIn(closed, alerts, AlertNote(runUrl));
    PerformAllValid(s, s.issues, findings, runUrl);
    CloseInDistinct(performed.issues, numbers, ResolvedNote(runUrl));
    hide CloseIn, PerformAll, Candidates, UpToDate, ResolvedNumbers, AlertNumbers, DistinctNumbers, FirstWith;
    forall f | f in findings
      ensures Tracked(final, f)
    {
      AllHandled(s, findings, runUrl, f.fingerprint);
      HandledNotResolved(s, performed, findings, f);
      TrackedAfterClosing(performed.issues, numbers, ResolvedNote(runUrl), f);
      TrackedIsNoAlert(closed, f);
      TrackedAfterClosing(closed, alerts, AlertNote(runUrl), f);
    }
    if MayClose(findings, zapExitCode) {
      forall fp | !Present(findings, fp)
        ensures Candidates(performed.issues, fp) == Candidates(s.issues, fp)
      {
        AllHandled(s, findings, runUrl, fp);
        AbsentFromAll(findings, fp);
      }
      ResolvedClosed(performed.issues, s.issues, findings, ResolvedNote(runUrl));
      ResolvedStaysNone(closed, alerts, findings, AlertNote(runUrl));
    }
    AlertsClosed(closed, AlertNote(runUrl));
  }

  lemma AbsentFromAll(findings: seq<Finding>, fp: string)
    requires !Present(findings, fp)
    ensures forall f :: f in findings ==> f.fingerprint != fp
  {}

  // ----- a settled store is left alone -----

  lemma {:induction false} SettledFindingsUnchanged(s: Store, findings: seq<Finding>, runUrl: string)
    requires forall f :: f in findings ==> Tracked(s.issues, f)
    ensures PerformAll(s, s.issues, findings, runUrl) == s
    ensures CountAll(s.issues, findings) == Counts(0, 0, 0, 0)
  {
    hide Candidates, UpToDate, FirstWith;
    if findings != [] {
      var init, last := findings[..|findings| - 1], findings[|findings| - 1];
      assert last in findings && forall f :: f in init ==> f in findings;
      SettledFindingsUnchanged(s, init, runUrl);
    }
  }

  /** Idempotence: a run on a settled store changes nothing and reports nothing, whatever the
      address of the run. */
  lemma SettledRunDoesNothing(s: Store, findings: seq<Finding>, runUrl: string, zapExitCode: int)
    requires Settled(s, findings, zapExitCode)
    ensures Reconciled(s, findings, runUrl, zapExitCode) == s
    ensures ReconciledCounts(s, findings, zapExitCode) == Counts(0, 0, 0, 0)
  {
    SettledFindingsUnchanged(s, findings, runUrl);
    CloseNothing(s.issues, ResolvedNote(runUrl));
    CloseNothing(s.issues, AlertNote(runUrl));
    hide CloseIn, PerformAll, CountAll, ResolvedNumbers, AlertNumbers, Tracked;
  }

  /** Reconciling twice is reconciling once. */
  lemma SecondRunIsQuiet(s: Store, findings: seq<Finding>, runUrl: string, laterUrl: string, zapExitCode: int)
    requires ValidStore(s) && Consistent(findings)
    ensures var once := Reconciled(s, findings, runUrl, zapExitCode);
      && Reconciled(once, findings, laterUrl, zapExitCode) == once
      && ReconciledCounts(once, findings, zapExitCode) == Counts(0, 0, 0, 0)
  {
    OneRunSettles(s, findings, runUrl, zapExitCode);
    SettledRunDoesNothing(Reconciled(s, findings, runUrl, zapExitCode), findings, laterUrl, zapExitCode);
  }

  // ----- and when findings disagree -----

  ghost predicate Quiet(c: Counts) {
    c.created == 0 && c.updated == 0 && c.reopened == 0
  }

  lemma {:induction false} QuietMeansUnchanged(listing: seq<Issue>, findings: seq<Finding>, f: Finding)
    requires Quiet(CountAll(listing, findings)) && f in findings
    ensures Tracked(listing, f)
  {
    hide Candidates, UpToDate, FirstWith;
    var init, last := findings[..|findings| - 1], findings[|findings| - 1];
    assert findings == init + [last];
    if f != last {
      QuietMeansUnchanged(listing, init, f);
    }
  }

  /** Two findings with one fingerprint that want different issues never settle: every run, on
      every store, reports a change. */
  lemma DisagreementNeverSettles(s: Store, findings: seq<Finding>, zapExitCode: int)
    requires !Consistent(findings)
    ensures !Quiet(ReconciledCounts(s, findings, zapExitCode))
  {
    hide Candidates, FirstWith, ResolvedNumbers;
    if Quiet(CountAll(s.issues, findings)) {
      var a, b :| a in findings && b in findings && a.fingerprint == b.fingerprint && !SameIssue(a, b);
      QuietMeansUnchanged(s.issues, findings, a);
      QuietMeansUnchanged(s.issues, findings, b);
      assert false;
    }
  }
}
