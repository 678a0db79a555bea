/** Driving an issue store to match a set of findings. */
module Reconcile {
  import opened Wrappers
  import opened Findings

  datatype Issue = Issue(number: nat, open: bool, pullRequest: bool, title: string, body: string, labels: seq<string>,
                         comments: seq<string>)

  /** Issues in the order the service lists them, newest first. */
  datatype Store = Store(issues: seq<Issue>, next: nat)

  datatype Counts = Counts(created: nat, updated: nat, reopened: nat, closed: nat)

  ghost predicate ValidStore(s: Store) {
    && (forall k :: 0 <= k < |s.issues| ==> s.issues[k].number < s.next)
    && DistinctNumbers(s.issues)
  }

  ghost predicate DistinctNumbers(issues: seq<Issue>) {
    forall j, k :: 0 <= j < k < |issues| ==> issues[j].number != issues[k].number
  }

  // ----- requests -----

  function Content(i: Issue, title: string, body: string, labels: seq<string>): Issue {
    i.(title := title, body := body, labels := labels)
  }

  function Create(s: Store, title: string, body: string, labels: seq<string>): Store {
    Store([Issue(s.next, true, false, title, body, labels, [])] + s.issues, s.next + 1)
  }

  /** A change of one issue's title, body and labels, which also opens it when asked to. */
  function Rewrite(s: Store, number: nat, reopen: bool, title: string, body: string, labels: seq<string>): Store {
    s.(issues := RewriteIn(s.issues, number, reopen, title, body, labels))
  }

  function Rewritten(i: Issue, reopen: bool, title: string, body: string, labels: seq<string>): Issue {
    Content(i, title, body, labels).(open := i.open || reopen)
  }

  function RewriteIn(issues: seq<Issue>, number: nat, reopen: bool, title: string, body: string,
                     labels: seq<string>): seq<Issue> {
    if issues == [] then []
    else [if issues[0].number == number then Rewritten(issues[0], reopen, title, body, labels) else issues[0]]
         + RewriteIn(issues[1..], number, reopen, title, body, labels)
  }

  /** A comment and then a change of state. */
  function CloseOne(s: Store, number: nat, note: string): Store {
    s.(issues := CloseIn(s.issues, {number}, note))
  }

  function Closed(i: Issue, note: string): Issue {
    i.(open := false, comments := i.comments + [note])
  }

  function CloseIn(issues: seq<Issue>, numbers: set<nat>, note: string): (r: seq<Issue>)
    ensures |r| == |issues|
  {
    if issues == [] then []
    else [if issues[0].number in numbers then Closed(issues[0], note) else issues[0]] + CloseIn(issues[1..], numbers, note)
  }

  // ----- finding an issue again -----

  predicate Listed(i: Issue) {
    LABEL in i.labels && !i.pullRequest
  }

  function ListLabeled(issues: seq<Issue>): seq<Issue> {
    if issues == [] then []
    else (if Listed(issues[0]) then [issues[0]] else []) + ListLabeled(issues[1..])
  }

  predicate Tracks(i: Issue, fingerprint: string) {
    Marker(i.body, FINGERPRINT_MARK) == Some(fingerprint)
  }

  /** The listed issues of one fingerprint. */
  function Candidates(issues: seq<Issue>, fingerprint: string): seq<Issue> {
    if issues == [] then []
    else (if Listed(issues[0]) && Tracks(issues[0], fingerprint) then [issues[0]] else []) + Candidates(issues[1..], fingerprint)
  }

  function FirstWith(issues: seq<Issue>, open: bool): Option<Issue> {
    if issues == [] then None
    else if issues[0].open == open then Some(issues[0])
    else FirstWith(issues[1..], open)
  }

  predicate UpToDate(i: Issue, f: Finding) {
    && i.title == RenderTitle(f)
    && Marker(i.body, CONTENT_MARK) == Some(f.contentHash)
    && multiset(i.labels) == multiset(SeverityLabels(f))
  }

  // ----- one finding -----

  datatype Outcome = Unchanged | Created | Updated | Reopened

  function OutcomeFor(candidates: seq<Issue>, f: Finding): Outcome {
    var openIssue := FirstWith(candidates, true);
    var closedIssue := FirstWith(candidates, false);
    if openIssue.Some? then (if UpToDate(openIssue.value, f) then Unchanged else Updated)
    else if closedIssue.Some? then Reopened
    else Created
  }

  function Perform(s: Store, candidates: seq<Issue>, f: Finding, runUrl: string): Store {
    var title, body, labels := RenderTitle(f), RenderBody(f, runUrl), SeverityLabels(f);
    match OutcomeFor(candidates, f)
    case Unchanged => s
    case Created => Create(s, title, body, labels)
    case Updated => Rewrite(s, FirstWith(candidates, true).value.number, false, title, body, labels)
    case Reopened => Rewrite(s, FirstWith(candidates, false).value.number, true, title, body, labels)
  }

  function Counted(c: Counts, o: Outcome): Counts {
    match o
    case Unchanged => c
    case Created => c.(created := c.created + 1)
    case Updated => c.(updated := c.updated + 1)
    case Reopened => c.(reopened := c.reopened + 1)
  }

  /** Every finding is compared with the listing taken at the start, not with the store as it
      changes. */
  function PerformAll(s: Store, listing: seq<Issue>, findings: seq<Finding>, runUrl: string): Store {
    if findings == [] then s
    else
      var last := findings[|findings| - 1];
      Perform(PerformAll(s, listing, findings[..|findings| - 1], runUrl), Candidates(listing, last.fingerprint), last, runUrl)
  }

  function CountAll(listing: seq<Issue>, findings: seq<Finding>): Counts {
    if findings == [] then Counts(0, 0, 0, 0)
    else
      var last := findings[|findings| - 1];
      Counted(CountAll(listing, findings[..|findings| - 1]), OutcomeFor(Candidates(listing, last.fingerprint), last))
  }

  // ----- closing -----

  ghost predicate Present(findings: seq<Finding>, fingerprint: string) {
    exists k :: 0 <= k < |findings| && findings[k].fingerprint == fingerprint
  }

  /** An open listed issue of a fingerprint that was not found this time. */
  ghost predicate Resolved(i: Issue, findings: seq<Finding>) {
    Listed(i) && i.open && exists fp :: Tracks(i, fp) && !Present(findings, fp)
  }

  ghost function ResolvedNumbers(issues: seq<Issue>, findings: seq<Finding>): set<nat> {
    set k | 0 <= k < |issues| && Resolved(issues[k], findings) :: issues[k].number
  }

  predicate ScanAlert(i: Issue) {
    i.open && !i.pullRequest && i.title == SCAN_ALERT_TITLE
  }

  ghost function AlertNumbers(issues: seq<Issue>): set<nat> {
    set k | 0 <= k < |issues| && ScanAlert(issues[k]) :: issues[k].number
  }

  function OrNoUrl(runUrl: string): string {
    if runUrl == "" then "no run URL" else runUrl
  }

  function ResolvedNote(runUrl: string): string {
    "Not detected in the latest baseline scan (" + OrNoUrl(runUrl) + "). Closing."
  }

  function AlertNote(runUrl: string): string {
    "The DAST scan produced a report again (" + OrNoUrl(runUrl) + ")."
  }

  predicate MayClose(findings: seq<Finding>, zapExitCode: int) {
    findings != [] || zapExitCode == 0
  }

  ghost function Reconciled(s: Store, findings: seq<Finding>, runUrl: string, zapExitCode: int): Store {
    var performed := PerformAll(s, s.issues, findings, runUrl);
    var numbers := if MayClose(findings, zapExitCode) then ResolvedNumbers(s.issues, findings) else {};
    var closed := performed.(issues := CloseIn(performed.issues, numbers, ResolvedNote(runUrl)));
    closed.(issues := CloseIn(closed.issues, AlertNumbers(closed.issues), AlertNote(runUrl)))
  }

  ghost function ReconciledCounts(s: Store, findings: seq<Finding>, zapExitCode: int): Counts {
    var counts := CountAll(s.issues, findings);
    counts.(closed := if MayClose(findings, zapExitCode) then |ResolvedNumbers(s.issues, findings)| else 0)
  }

  // ----- the run -----

  lemma {:induction false} CandidatesOfListing(issues: seq<Issue>, fingerprint: string)
    ensures Candidates(ListLabeled(issues), fingerprint) == Candidates(issues, fingerprint)
  {
    hide Listed, Tracks;
    if issues != [] {
      CandidatesOfListing(issues[1..], fingerprint);
      var rest := ListLabeled(issues[1..]);
      if Listed(issues[0]) {
        assert ([issues[0]] + rest)[1..] == rest;
      } else {
        assert [] + rest == rest;
      }
    }
  }

  lemma {:induction false} CandidatesAppend(a: seq<Issue>, b: seq<Issue>, fingerprint: string)
    ensures Candidates(a + b, fingerprint) == Candidates(a, fingerprint) + Candidates(b, fingerprint)
  {
    hide Listed, Tracks;
    if a == [] {
      assert a + b == b;
    } else {
      assert (a + b)[1..] == a[1..] + b;
      CandidatesAppend(a[1..], b, fingerprint);
    }
  }

  lemma {:induction false} CandidateIn(issues: seq<Issue>, fingerprint: string, i: Issue)
    ensures i in Candidates(issues, fingerprint) <==> i in issues && Listed(i) && Tracks(i, fingerprint)
  {
    hide Listed, Tracks;
    if issues != [] {
      CandidateIn(issues[1..], fingerprint, i);
    }
  }

  lemma {:induction false} ListedIn(issues: seq<Issue>, i: Issue)
    ensures i in ListLabeled(issues) <==> i in issues && Listed(i)
  {
    hide Listed;
    if issues != [] {
      ListedIn(issues[1..], i);
    }
  }

  lemma {:induction false} CloseInAt(issues: seq<Issue>, numbers: set<nat>, note: string, k: nat)
    requires k < |issues|
    ensures CloseIn(issues, numbers, note)[k] == if issues[k].number in numbers then Closed(issues[k], note) else issues[k]
  {
    if k > 0 {
      CloseInAt(issues[1..], numbers, note, k - 1);
    }
  }

  lemma {:induction false} CloseAnother(issues: seq<Issue>, numbers: set<nat>, number: nat, note: string)
    requires number !in numbers
    ensures CloseIn(CloseIn(issues, numbers, note), {number}, note) == CloseIn(issues, numbers + {number}, note)
  {
    if issues != [] {
      CloseAnother(issues[1..], numbers, number, note);
      var closed := CloseIn(issues, numbers, note);
      assert closed[1..] == CloseIn(issues[1..], numbers, note);
    }
  }

  lemma {:induction false} CloseNothing(issues: seq<Issue>, note: string)
    ensures CloseIn(issues, {}, note) == issues
  {
    if issues != [] {
      CloseNothing(issues[1..], note);
    }
  }

  lemma OneMoreNumber(numbers: set<nat>, number: nat)
    requires number !in numbers
    ensures |numbers + {number}| == |numbers| + 1
  {}

  /** The dictionary of listed issues by fingerprint, each list in listing order. */
  ghost predicate Grouped(groups: map<string, seq<Issue>>, issues: seq<Issue>) {
    forall fp :: Candidates(issues, fp) == if fp in groups then groups[fp] else []
  }

  lemma GroupAnother(groups: map<string, seq<Issue>>, issues: seq<Issue>, i: Issue)
    requires Grouped(groups, issues) && Listed(i)
    ensures var fingerprint := Marker(i.body, FINGERPRINT_MARK);
      Grouped(if fingerprint.None? then groups
              else groups[fingerprint.value :=
                (if fingerprint.value in groups then groups[fingerprint.value] else []) + [i]], issues + [i])
  {
    hide Marker, Listed, Candidates;
    var fingerprint := Marker(i.body, FINGERPRINT_MARK);
    var groups' := if fingerprint.None? then groups
                   else groups[fingerprint.value :=
                     (if fingerprint.value in groups then groups[fingerprint.value] else []) + [i]];
    forall fp
      ensures Candidates(issues + [i], fp) == if fp in groups' then groups'[fp] else []
    {
      CandidatesAppend(issues, [i], fp);
      SingleCandidate(i, fp);
    }
  }

  method GroupByFingerprint(listing: seq<Issue>) returns (groups: map<string, seq<Issue>>)
    ensures Grouped(groups, ListLabeled(listing))
  {
    hide Tracks, Listed, Marker, Grouped;
    groups := map[];
    var issues := ListLabeled(listing);
    NoGroups();
    for k := 0 to |issues|
      invariant Grouped(groups, issues[..k])
    {
      var issue := issues[k];
      var fingerprint := Marker(issue.body, FINGERPRINT_MARK);
      assert issues[..k + 1] == issues[..k] + [issue];
      ListedIn(listing, issue);
      GroupAnother(groups, issues[..k], issue);
      if fingerprint.Some? {
        var fp := fingerprint.value;
        groups := groups[fp := (if fp in groups then groups[fp] else []) + [issue]];
      }
    }
    assert issues[..|issues|] == issues;
  }

  lemma NoGroups()
    ensures Grouped(map[], [])
  {}

  lemma {:induction false} SingleCandidate(i: Issue, fp: string)
    requires Listed(i)
    ensures Candidates([i], fp) == if Marker(i.body, FINGERPRINT_MARK) == Some(fp) then [i] else []
  {
    hide Marker, Listed;
    assert [i][1..] == [];
  }

  class GitHub {
    var store: Store

    constructor (store: Store)
      ensures this.store == store
    {
      this.store := store;
    }

    method CreateIssue(title: string, body: string, labels: seq<string>)
      modifies this
      ensures store == Create(old(store), title, body, labels)
    {
      store := Create(store, title, body, labels);
    }

    method RewriteIssue(number: nat, reopen: bool, title: string, body: string, labels: seq<string>)
      modifies this
      ensures store == Rewrite(old(store), number, reopen, title, body, labels)
    {
      store := Rewrite(store, number, reopen, title, body, labels);
    }

    method CommentAndClose(number: nat, note: string)
      modifies this
      ensures store == CloseOne(old(store), number, note)
    {
      store := CloseOne(store, number, note);
    }

    method ApplyFindings(groups: map<string, seq<Issue>>, findings: seq<Finding>, runUrl: string, dryRun: bool)
      returns (counts: Counts)
      requires Grouped(groups, ListLabeled(store.issues))
      modifies this
      ensures store == if dryRun then old(store) else PerformAll(old(store), old(store.issues), findings, runUrl)
      ensures counts == CountAll(old(store.issues), findings)
    {
      hide RenderTitle, RenderBody, SeverityLabels, UpToDate, Candidates, Create, Rewrite, FirstWith, ListLabeled;
      ghost var start := store;
      counts := Counts(0, 0, 0, 0);
      for k := 0 to |findings|
        invariant store == if dryRun then start else PerformAll(start, start.issues, findings[..k], runUrl)
        invariant counts == CountAll(start.issues, findings[..k])
      {
        var f := findings[k];
        var candidates := if f.fingerprint in groups then groups[f.fingerprint] else [];
        CandidatesOfListing(start.issues, f.fingerprint);
        assert findings[..k + 1][..k] == findings[..k];
        var openIssue := FirstWith(candidates, true);
        var closedIssue := FirstWith(candidates, false);
        var title, body, labels := RenderTitle(f), RenderBody(f, runUrl), SeverityLabels(f);
        if openIssue.None? && closedIssue.None? {
          if !dryRun { CreateIssue(title, body, labels); }
          counts := counts.(created := counts.created + 1);
        } else if openIssue.None? {
          if !dryRun { RewriteIssue(closedIssue.value.number, true, title, body, labels); }
          counts := counts.(reopened := counts.reopened + 1);
        } else if !UpToDate(openIssue.value, f) {
          if !dryRun { RewriteIssue(openIssue.value.number, false, title, body, labels); }
          counts := counts.(updated := counts.updated + 1);
        }
      }
      assert findings[..|findings|] == findings;
    }

    /** Close the open issues of one fingerprint. `closed` are the numbers closed before. */
    method CloseGroup(candidates: seq<Issue>, note: string, dryRun: bool, ghost base: seq<Issue>, ghost closed: set<nat>,
                      count0: nat)
      returns (count: nat)
      requires DistinctNumbers(candidates) && count0 == |closed|
      requires OpenNumbers(candidates) !! closed
      requires !dryRun ==> store.issues == CloseIn(base, closed, note)
      modifies this
      ensures count == |closed + OpenNumbers(candidates)|
      ensures store.next == old(store.next)
      ensures if dryRun then store == old(store) else store.issues == CloseIn(base, closed + OpenNumbers(candidates), note)
    {
      hide CloseIn;
      count := count0;
      assert OpenNumbers([]) == {};
      assert closed + {} == closed;
      for k := 0 to |candidates|
        invariant count == |closed + OpenNumbers(candidates[..k])|
        invariant store.next == old(store.next)
        invariant if dryRun then store == old(store)
                  else store.issues == CloseIn(base, closed + OpenNumbers(candidates[..k]), note)
      {
        OpenNumbersStep(candidates, closed, k);
        if !candidates[k].open { continue; }
        ghost var before := closed + OpenNumbers(candidates[..k]);
        CloseAnother(base, before, candidates[k].number, note);
        OneMoreNumber(before, candidates[k].number);
        if !dryRun { CommentAndClose(candidates[k].number, note); }
        count := count + 1;
      }
      assert candidates[..|candidates|] == candidates;
    }

    /** Close what was not found this time, group by group. */
    method CloseResolved(groups: map<string, seq<Issue>>, ghost listing: seq<Issue>, findings: seq<Finding>, note: string,
                         dryRun: bool)
      returns (count: nat)
      requires Grouped(groups, ListLabeled(listing)) && DistinctNumbers(listing)
      modifies this
      ensures count == |ResolvedNumbers(listing, findings)|
      ensures store.next == old(store.next)
      ensures if dryRun then store == old(store)
              else store.issues == CloseIn(old(store.issues), ResolvedNumbers(listing, findings), note)
    {
      hide CloseIn, Grouped, DistinctNumbers, OpenNumbers, ListLabeled, ResolvedNumbers, NumbersOf;
      var present := set f | f in findings :: f.fingerprint;
      count := 0;
      var todo := groups.Keys;
      ghost var base := store.issues;
      CloseNothing(base, note);
      NumbersOfNone(groups);
      assert groups.Keys - todo - present == {};
      while todo != {}
        invariant todo <= groups.Keys
        invariant count == |NumbersOf(groups, groups.Keys - todo - present)|
        invariant store.next == old(store.next)
        invariant if dryRun then store == old(store)
                  else store.issues == CloseIn(base, NumbersOf(groups, groups.Keys - todo - present), note)
        decreases |todo|
      {
        var fingerprint :| fingerprint in todo;
        ghost var done := groups.Keys - todo - present;
        NextGroup(groups.Keys, todo, present, fingerprint);
        todo := todo - {fingerprint};
        if fingerprint in present { continue; }
        GroupsDisjoint(groups, listing, done, fingerprint);
        NumbersOfOneMore(groups, done, fingerprint);
        count := CloseGroup(groups[fingerprint], note, dryRun, base, NumbersOf(groups, done), count);
      }
      assert groups.Keys - {} - present == groups.Keys - present;
      ResolvedAsGroups(groups, listing, findings, groups.Keys - present);
    }

    method CloseScanAlert(note: string, dryRun: bool)
      requires DistinctNumbers(store.issues)
      modifies this
      ensures store.next == old(store.next)
      ensures if dryRun then store == old(store)
              else store.issues == CloseIn(old(store.issues), AlertNumbers(old(store.issues)), note)
    {
      hide CloseIn;
      var alerts := AlertsIn(store.issues);
      AlertsInNumbers(store.issues);
      CloseNothing(store.issues, note);
      var count := CloseGroup(alerts, note, dryRun, store.issues, {}, 0);
      assert {} + OpenNumbers(alerts) == AlertNumbers(old(store.issues));
    }

    /** One reconciliation run. */
    method ReconcileFindings(findings: seq<Finding>, runUrl: string, zapExitCode: int, dryRun: bool) returns (counts: Counts)
      requires ValidStore(store)
      modifies this
      ensures counts == ReconciledCounts(old(store), findings, zapExitCode)
      ensures store == if dryRun then old(store) else Reconciled(old(store), findings, runUrl, zapExitCode)
    {
      hide CloseIn, PerformAll, CountAll, ResolvedNumbers, AlertNumbers, Grouped, DistinctNumbers, ListLabeled;
      ghost var listing := store.issues;
      var groups := GroupByFingerprint(store.issues);
      assert DistinctNumbers(listing);
      counts := ApplyFindings(groups, findings, runUrl, dryRun);
      ghost var performed := store;
      if !dryRun { PerformAllValid(old(store), listing, findings, runUrl); }
      CloseNothing(performed.issues, ResolvedNote(runUrl));
      if MayClose(findings, zapExitCode) {
        var closed := CloseResolved(groups, listing, findings, ResolvedNote(runUrl), dryRun);
        counts := counts.(closed := closed);
      }
      ghost var numbers := if MayClose(findings, zapExitCode) then ResolvedNumbers(listing, findings) else {};
      CloseInDistinct(performed.issues, numbers, ResolvedNote(runUrl));
      assert if dryRun then store == performed
             else store == performed.(issues := CloseIn(performed.issues, numbers, ResolvedNote(runUrl)));
      CloseScanAlert(AlertNote(runUrl), dryRun);
      CountAllClosed(listing, findings);
    }
  }

  ghost function OpenNumbers(issues: seq<Issue>): set<nat> {
    set k | 0 <= k < |issues| && issues[k].open :: issues[k].number
  }

  lemma OpenNumbersStep(issues: seq<Issue>, closed: set<nat>, k: nat)
    requires k < |issues| && DistinctNumbers(issues) && OpenNumbers(issues) !! closed
    ensures closed + OpenNumbers(issues[..k + 1])
         == closed + OpenNumbers(issues[..k]) + if issues[k].open then {issues[k].number} else {}
    ensures issues[k].open ==> issues[k].number !in closed + OpenNumbers(issues[..k])
  {
    if issues[k].open {
      assert issues[k].number in OpenNumbers(issues);
    }
  }

  ghost function NumbersOf(groups: map<string, seq<Issue>>, keys: set<string>): set<nat> {
    set fp, n | fp in keys && fp in groups && n in OpenNumbers(groups[fp]) :: n
  }

  lemma NextGroup(keys: set<string>, todo: set<string>, present: set<string>, fp: string)
    requires fp in todo && todo <= keys
    ensures var done, done' := keys - todo - present, keys - (todo - {fp}) - present;
      if fp in present then done' == done else done' == done + {fp} && fp !in done
  {}

  lemma NumbersOfNone(groups: map<string, seq<Issue>>)
    ensures NumbersOf(groups, {}) == {}
  {}

  lemma NumbersOfOneMore(groups: map<string, seq<Issue>>, keys: set<string>, fp: string)
    requires fp in groups
    ensures NumbersOf(groups, keys + {fp}) == NumbersOf(groups, keys) + OpenNumbers(groups[fp])
  {
    hide OpenNumbers;
  }

  lemma OpenNumberOf(issues: seq<Issue>, n: nat) returns (i: Issue)
    requires n in OpenNumbers(issues)
    ensures i in issues && i.open && i.number == n
  {
    var k :| 0 <= k < |issues| && issues[k].open && issues[k].number == n;
    i := issues[k];
  }

  lemma {:induction false} CandidatesKeepOrder(issues: seq<Issue>, fp: string)
    requires DistinctNumbers(issues)
    ensures DistinctNumbers(Candidates(issues, fp))
  {
    hide Listed, Tracks;
    if issues != [] {
      assert forall k :: 0 <= k < |issues[1..]| ==> issues[1..][k] == issues[k + 1];
      CandidatesKeepOrder(issues[1..], fp);
      var rest := Candidates(issues[1..], fp);
      forall k | 0 <= k < |rest|
        ensures rest[k].number != issues[0].number
      {
        CandidateIn(issues[1..], fp, rest[k]);
        var m :| 0 <= m < |issues[1..]| && issues[1..][m] == rest[k];
        assert issues[m + 1] == rest[k];
      }
    }
  }

  lemma {:induction false} GroupMember(groups: map<string, seq<Issue>>, listing: seq<Issue>, fp: string, i: Issue)
    requires Grouped(groups, ListLabeled(listing)) && fp in groups
    ensures i in groups[fp] <==> i in listing && Listed(i) && Tracks(i, fp)
    ensures groups[fp] == Candidates(listing, fp)
  {
    hide Listed, Tracks, ListLabeled, Candidates;
    assert Candidates(ListLabeled(listing), fp) == groups[fp];
    CandidatesOfListing(listing, fp);
    CandidateIn(listing, fp, i);
  }

  lemma SameNumberSameIssue(issues: seq<Issue>, a: Issue, b: Issue)
    requires DistinctNumbers(issues) && a in issues && b in issues && a.number == b.number
    ensures a == b
  {}

  lemma {:induction false} GroupsDisjoint(groups: map<string, seq<Issue>>, listing: seq<Issue>, done: set<string>, fp: string)
    requires Grouped(groups, ListLabeled(listing)) && DistinctNumbers(listing)
    requires fp in groups && fp !in done && done <= groups.Keys
    ensures DistinctNumbers(groups[fp]) && OpenNumbers(groups[fp]) !! NumbersOf(groups, done)
  {
    hide Listed, ListLabeled, Candidates, Grouped, OpenNumbers, DistinctNumbers;
    forall n | n in OpenNumbers(groups[fp]) && n in NumbersOf(groups, done)
      ensures false
    {
      var other :| other in done && n in OpenNumbers(groups[other]);
      var a := OpenNumberOf(groups[fp], n);
      var b := OpenNumberOf(groups[other], n);
      GroupMember(groups, listing, fp, a);
      GroupMember(groups, listing, other, b);
      SameNumberSameIssue(listing, a, b);
    }
    if groups[fp] != [] {
      GroupMember(groups, listing, fp, groups[fp][0]);
    }
    GroupDistinct(groups, listing, fp);
  }

  lemma {:induction false} GroupDistinct(groups: map<string, seq<Issue>>, listing: seq<Issue>, fp: string)
    requires Grouped(groups, ListLabeled(listing)) && DistinctNumbers(listing) && fp in groups
    ensures DistinctNumbers(groups[fp])
  {
    hide Listed, ListLabeled, Candidates, DistinctNumbers;
    assert Candidates(ListLabeled(listing), fp) == groups[fp];
    CandidatesOfListing(listing, fp);
    CandidatesKeepOrder(listing, fp);
  }

  lemma {:induction false} ResolvedAsGroups(groups: map<string, seq<Issue>>, listing: seq<Issue>,
                                            findings: seq<Finding>, done: set<string>)
    requires Grouped(groups, ListLabeled(listing))
    requires forall fp :: fp in done <==> fp in groups && !(exists f :: f in findings && f.fingerprint == fp)
    ensures NumbersOf(groups, done) == ResolvedNumbers(listing, findings)
  {
    hide Listed, ListLabeled, Candidates, Tracks;
    forall n
      ensures n in NumbersOf(groups, done) <==> n in ResolvedNumbers(listing, findings)
    {
      if n in NumbersOf(groups, done) {
        var fp :| fp in done && n in OpenNumbers(groups[fp]);
        var i := OpenNumberOf(groups[fp], n);
        GroupMember(groups, listing, fp, i);
        var k :| 0 <= k < |listing| && listing[k] == i;
        assert !Present(findings, fp) by {
          assert forall m :: 0 <= m < |findings| ==> findings[m] in findings;
        }
        assert Resolved(listing[k], findings);
      }
      if n in ResolvedNumbers(listing, findings) {
        var k :| 0 <= k < |listing| && Resolved(listing[k], findings) && listing[k].number == n;
        var fp :| Tracks(listing[k], fp) && !Present(findings, fp);
        CandidateIn(listing, fp, listing[k]);
        CandidatesOfListing(listing, fp);
        assert fp in groups && listing[k] in groups[fp];
        assert fp in done;
        var m :| 0 <= m < |groups[fp]| && groups[fp][m] == listing[k];
        assert n in OpenNumbers(groups[fp]);
      }
    }
  }

  function AlertsIn(issues: seq<Issue>): seq<Issue> {
    if issues == [] then []
    else (if ScanAlert(issues[0]) then [issues[0]] else []) + AlertsIn(issues[1..])
  }

  lemma {:induction false} AlertIn(issues: seq<Issue>, i: Issue)
    ensures i in AlertsIn(issues) <==> i in issues && ScanAlert(i)
  {
    hide ScanAlert;
    if issues != [] {
      AlertIn(issues[1..], i);
    }
  }

  lemma {:induction false} AlertsDistinct(issues: seq<Issue>)
    requires DistinctNumbers(issues)
    ensures DistinctNumbers(AlertsIn(issues))
  {
    hide ScanAlert;
    if issues != [] {
      assert forall k :: 0 <= k < |issues[1..]| ==> issues[1..][k] == issues[k + 1];
      AlertsDistinct(issues[1..]);
      var rest := AlertsIn(issues[1..]);
      forall k | 0 <= k < |rest|
        ensures rest[k].number != issues[0].number
      {
        AlertIn(issues[1..], rest[k]);
        var m :| 0 <= m < |issues[1..]| && issues[1..][m] == rest[k];
        assert issues[m + 1] == rest[k];
      }
    }
  }

  lemma {:induction false} AlertsInNumbers(issues: seq<Issue>)
    requires DistinctNumbers(issues)
    ensures DistinctNumbers(AlertsIn(issues)) && OpenNumbers(AlertsIn(issues)) == AlertNumbers(issues)
  {
    AlertsDistinct(issues);
    hide DistinctNumbers, AlertsIn;
    var alerts := AlertsIn(issues);
    forall n
      ensures n in OpenNumbers(alerts) <==> n in AlertNumbers(issues)
    {
      if n in OpenNumbers(alerts) {
        var i := OpenNumberOf(alerts, n);
        AlertIn(issues, i);
        var k :| 0 <= k < |issues| && issues[k] == i;
      }
      if n in AlertNumbers(issues) {
        var k :| 0 <= k < |issues| && ScanAlert(issues[k]) && issues[k].number == n;
        AlertIn(issues, issues[k]);
        var m :| 0 <= m < |alerts| && alerts[m] == issues[k];
      }
    }
  }

  // ----- the store stays well formed -----

  lemma {:induction false} RewriteInAt(issues: seq<Issue>, number: nat, reopen: bool, title: string, body: string,
                                       labels: seq<string>,
                                       k: nat)
    requires k < |issues|
    ensures |RewriteIn(issues, number, reopen, title, body, labels)| == |issues|
    ensures RewriteIn(issues, number, reopen, title, body, labels)[k]
         == if issues[k].number == number then Rewritten(issues[k], reopen, title, body, labels) else issues[k]
  {
    hide Rewritten;
    if k > 0 {
      RewriteInAt(issues[1..], number, reopen, title, body, labels, k - 1);
    } else if |issues| > 1 {
      RewriteInAt(issues[1..], number, reopen, title, body, labels, 0);
    }
  }

  lemma RewriteValid(s: Store, number: nat, reopen: bool, title: string, body: string, labels: seq<string>)
    requires ValidStore(s)
    ensures ValidStore(Rewrite(s, number, reopen, title, body, labels))
  {
    hide RewriteIn;
    var issues := RewriteIn(s.issues, number, reopen, title, body, labels);
    if s.issues != [] {
      RewriteInAt(s.issues, number, reopen, title, body, labels, 0);
    } else {
      assert issues == [] by { NoRewrite(number, reopen, title, body, labels); }
    }
    forall k | 0 <= k < |issues|
      ensures issues[k].number == s.issues[k].number
    {
      RewriteInAt(s.issues, number, reopen, title, body, labels, k);
    }
  }

  lemma {:induction false} NoRewrite(number: nat, reopen: bool, title: string, body: string, labels: seq<string>)
    ensures RewriteIn([], number, reopen, title, body, labels) == []
  {}

  lemma {:induction false} CloseInDistinct(issues: seq<Issue>, numbers: set<nat>, note: string)
    ensures DistinctNumbers(issues) ==> DistinctNumbers(CloseIn(issues, numbers, note))
  {
    hide CloseIn;
    forall k | 0 <= k < |issues|
      ensures CloseIn(issues, numbers, note)[k].number == issues[k].number
    {
      CloseInAt(issues, numbers, note, k);
    }
  }

  lemma PerformValid(s: Store, candidates: seq<Issue>, f: Finding, runUrl: string)
    requires ValidStore(s)
    ensures ValidStore(Perform(s, candidates, f, runUrl))
    ensures Perform(s, candidates, f, runUrl).next >= s.next
  {
    hide RenderTitle, RenderBody, SeverityLabels, UpToDate, RewriteIn;
    var title, body, labels := RenderTitle(f), RenderBody(f, runUrl), SeverityLabels(f);
    match OutcomeFor(candidates, f)
    case Updated => RewriteValid(s, FirstWith(candidates, true).value.number, false, title, body, labels);
    case Reopened => RewriteValid(s, FirstWith(candidates, false).value.number, true, title, body, labels);
    case _ =>
  }

  lemma {:induction false} PerformAllValid(s: Store, listing: seq<Issue>, findings: seq<Finding>, runUrl: string)
    requires ValidStore(s)
    ensures ValidStore(PerformAll(s, listing, findings, runUrl))
    ensures PerformAll(s, listing, findings, runUrl).next >= s.next
  {
    hide Perform, ValidStore, Candidates;
    if findings != [] {
      var init, last := findings[..|findings| - 1], findings[|findings| - 1];
      PerformAllValid(s, listing, init, runUrl);
      PerformValid(PerformAll(s, listing, init, runUrl), Candidates(listing, last.fingerprint), last, runUrl);
    }
  }

  lemma {:induction false} CountAllClosed(listing: seq<Issue>, findings: seq<Finding>)
    ensures CountAll(listing, findings).closed == 0
  {
    if findings != [] {
      CountAllClosed(listing, findings[..|findings| - 1]);
    }
  }
}
