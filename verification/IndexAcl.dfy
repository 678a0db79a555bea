/** A row sent back because its access list is overdue stays searchable text, so searches on
    behalf of a user must refuse it until a new access list is published. */
module IndexAcl {
  import opened Wrappers
  import opened Extraction
  import opened NativeAcl
  import opened IndexTables
  import opened IndexSystem
  import opened IndexFreshness
  import opened IndexRaces

  const MIN_MAX_AGE_SECONDS := 60

  /** The age limit a search applies. */
  function SearchMaxAge(maxAgeSeconds: int): int {
    if maxAgeSeconds < MIN_MAX_AGE_SECONDS then MIN_MAX_AGE_SECONDS else maxAgeSeconds
  }

  predicate Refused(row: FileRow, principals: set<string>, maxAgeSeconds: int, clock: real) {
    !AuthorizeAcl(row.acl, principals, SearchMaxAge(maxAgeSeconds), clock.Floor).allowed
  }

  /** The stored column agrees with the stored record. */
  ghost predicate ColumnAgrees(s: System, path: string) {
    path in s.t.files ==>
      var row := s.t.files[path];
      row.aclCapturedAt == if row.acl.None? then None else CapturedColumn(row.acl.value)
  }

  lemma ColumnStep(cfg: Config, s: System, step: Step, path: string)
    requires Enabled(cfg, s, step) && ColumnAgrees(s, path)
    ensures ColumnAgrees(Apply(cfg, s, step), path)
  {
    hide RowsAt, Without, FtsRowsFor, DocumentRows, HasText, BudgetOf, StartsOver, Backoff;
    match step {
      case EnqueueTx(batch, onlyIfMissing) =>
        hide EnqueueAll, Listed, InitialStatus, IdentityOf;
        EnqueueAllAt(cfg, s.t, batch, onlyIfMissing, path);
      case DeleteTx(paths) =>
        hide DeleteAll;
        DeleteAllAt(s.t, paths, path);
      case _ =>
    }
  }

  lemma {:induction false} ColumnRun(cfg: Config, s: System, steps: seq<Step>, path: string)
    requires ValidRun(cfg, s, steps) && ColumnAgrees(s, path)
    ensures ColumnAgrees(After(cfg, s, steps), path)
    decreases |steps|
  {
    hide Enabled, Apply, ColumnAgrees;
    if steps != [] {
      ColumnStep(cfg, s, steps[0], path);
      ColumnRun(cfg, Apply(cfg, s, steps[0]), steps[1..], path);
    }
  }

  /** Too old or unusable at this clock reading, and therefore at every later one. */
  ghost predicate Lapsed(s: System, path: string, maxAgeSeconds: int) {
    path in s.t.files ==>
      var acl := s.t.files[path].acl;
      || acl.None?
      || acl.value.state != Healthy
      || acl.value.capturedAt.None?
      || s.clock.Floor - acl.value.capturedAt.value > SearchMaxAge(maxAgeSeconds)
  }

  /** The clock never goes back and the path is not published anew. */
  ghost predicate Uneventful(s: System, step: Step, path: string) {
    match step
    case Tick(time) => s.clock <= time
    case PublishTx(w, _, _) => w < |s.workers| && s.workers[w].Working? && s.workers[w].job.path != path
    case _ => true
  }

  ghost predicate UneventfulRun(cfg: Config, s: System, steps: seq<Step>, path: string)
    requires ValidRun(cfg, s, steps)
    decreases |steps|
  {
    steps == [] || (Uneventful(s, steps[0], path) && UneventfulRun(cfg, Apply(cfg, s, steps[0]), steps[1..], path))
  }

  lemma LapsedStep(cfg: Config, s: System, step: Step, path: string, maxAgeSeconds: int)
    requires Enabled(cfg, s, step) && Lapsed(s, path, maxAgeSeconds) && Uneventful(s, step, path)
    ensures Lapsed(Apply(cfg, s, step), path, maxAgeSeconds)
  {
    hide RowsAt, Without, FtsRowsFor, DocumentRows, HasText, BudgetOf, StartsOver, Backoff;
    match step {
      case EnqueueTx(batch, onlyIfMissing) =>
        hide EnqueueAll, Listed, InitialStatus, IdentityOf;
        EnqueueAllAt(cfg, s.t, batch, onlyIfMissing, path);
      case DeleteTx(paths) =>
        hide DeleteAll;
        DeleteAllAt(s.t, paths, path);
      case _ =>
    }
  }

  lemma {:induction false} LapsedRun(cfg: Config, s: System, steps: seq<Step>, path: string, maxAgeSeconds: int)
    requires ValidRun(cfg, s, steps) && Lapsed(s, path, maxAgeSeconds) && UneventfulRun(cfg, s, steps, path)
    ensures Lapsed(After(cfg, s, steps), path, maxAgeSeconds)
    decreases |steps|
  {
    hide Enabled, Apply, Lapsed, Uneventful;
    if steps != [] {
      LapsedStep(cfg, s, steps[0], path, maxAgeSeconds);
      LapsedRun(cfg, Apply(cfg, s, steps[0]), steps[1..], path, maxAgeSeconds);
    }
  }

  lemma LapsedAfterSweep(cfg: Config, s: System, batch: seq<FileInfo>, onlyIfMissing: bool, path: string, maxAgeSeconds: int)
    requires batch != [] && ColumnAgrees(s, path)
    requires path in s.t.files && AclDue(cfg, s.t.files[path], s.clock)
    requires SearchMaxAge(maxAgeSeconds) <= cfg.aclRefreshSeconds < s.clock.Floor
    ensures Lapsed(Apply(cfg, s, EnqueueTx(batch, onlyIfMissing)), path, maxAgeSeconds)
  {
    hide RowsAt, EnqueueAll, Listed, InitialStatus, IdentityOf, StartsOver, BudgetOf;
    EnqueueAllAt(cfg, s.t, batch, onlyIfMissing, path);
  }

  /** Stale access lists stay hidden: from the sweep that sends a row back, until its path is
      published again, no search on anyone's behalf shows it, provided searches accept no
      record older than the refresh interval and the clock reads later than that interval. */
  lemma {:induction false} StaleAclStaysHidden(cfg: Config, s: System, batch: seq<FileInfo>, onlyIfMissing: bool,
                                               steps: seq<Step>,
                                               path: string, principals: set<string>, maxAgeSeconds: int)
    requires Reachable(cfg, s) && batch != []
    requires path in s.t.files && AclDue(cfg, s.t.files[path], s.clock)
    requires SearchMaxAge(maxAgeSeconds) <= cfg.aclRefreshSeconds < s.clock.Floor
    requires ValidRun(cfg, Apply(cfg, s, EnqueueTx(batch, onlyIfMissing)), steps)
    requires UneventfulRun(cfg, Apply(cfg, s, EnqueueTx(batch, onlyIfMissing)), steps, path)
    ensures var end := After(cfg, Apply(cfg, s, EnqueueTx(batch, onlyIfMissing)), steps);
      path in end.t.files ==> Refused(end.t.files[path], principals, maxAgeSeconds, end.clock)
  {
    var sweep := EnqueueTx(batch, onlyIfMissing);
    assert Enabled(cfg, s, sweep);
    hide Apply, Enabled;
    var n: nat, clock, before: seq<Step> :|
      n > 0 && ValidRun(cfg, Start(n, clock), before) && s == After(cfg, Start(n, clock), before);
    ColumnRun(cfg, Start(n, clock), before, path);
    LapsedAfterSweep(cfg, s, batch, onlyIfMissing, path, maxAgeSeconds);
    LapsedRun(cfg, Apply(cfg, s, sweep), steps, path, maxAgeSeconds);
  }

  /** The record that lets one principal read, captured at a given second. */
  function ReadableBy(sid: string, captured: int): AclRecord {
    AclRecord(Healthy, Some(captured), [Ace(sid, false)], [])
  }

  lemma PublishOnlyFile(cfg: Config, f: FileInfo, doc: Document, acl: AclRecord, clock: real) returns (s: System)
    requires InitialStatus(cfg, IdentityOf(cfg, f)) == (Pending, None) && HasText(cfg, doc)
    ensures Reachable(cfg, s) && f.path in s.t.files && s.t.files[f.path].status == Ready
    ensures s.t.files[f.path].acl == Some(acl) && s.t.files[f.path].aclCapturedAt == CapturedColumn(acl)
  {
    hide RowsAt, Without, EnqueueMany, ClaimPath, StartsOver, HasText, FtsRowsFor, ReadingsOf;
    StartReachable(cfg, 1, clock);
    var s0 := RescanOnlyFile(cfg, Start(1, clock), f);
    OneStep(cfg, s0, Begin(0));
    var s1 := ClaimOnlyFile(cfg, Apply(cfg, s0, Begin(0)), 0, f);
    var publish := PublishTx(0, doc, acl);
    OneStep(cfg, s1, publish);
    s := Apply(cfg, s1, publish);
    PublishAt(cfg, s1.t, s1.workers[0].job, DocumentRows(doc, cfg.maxTextChars), PagesOf(doc), acl, f.path);
  }

  lemma StillReadable(row: FileRow, sid: string, maxAgeSeconds: int, captured: int, clock: real)
    requires row.acl == Some(ReadableBy(sid, captured)) && 0 <= clock.Floor - captured <= SearchMaxAge(maxAgeSeconds)
    ensures !Refused(row, {sid}, maxAgeSeconds, clock)
  {
    assert Ace(sid, false) in row.acl.value.allow;
    assert Upper(sid) in UpperAll({sid});
  }

  /** The bound on the age limit is needed: with any larger one, any file with text can be
      published so that a sweep sends its row back and it still opens for its reader. */
  lemma LongerMaxAgeExposes(cfg: Config, f: FileInfo, doc: Document, sid: string, start: real, maxAgeSeconds: int)
    returns (s: System)
    requires 0 <= cfg.aclRefreshSeconds < SearchMaxAge(maxAgeSeconds)
    requires InitialStatus(cfg, IdentityOf(cfg, f)) == (Pending, None) && HasText(cfg, doc)
    ensures Reachable(cfg, s) && f.path in s.t.files && AclDue(cfg, s.t.files[f.path], s.clock)
    ensures var swept := Apply(cfg, s, EnqueueTx([f], true));
      && f.path in swept.t.files && swept.t.files[f.path].status == Pending
      && !Refused(swept.t.files[f.path], {sid}, maxAgeSeconds, swept.clock)
  {
    hide RowsAt, Without, StartsOver, HasText, Refused, SearchMaxAge, BudgetOf, InitialStatus, IdentityOf;
    var captured := start.Floor;
    var s0 := PublishOnlyFile(cfg, f, doc, ReadableBy(sid, captured), start);
    var later := Tick((captured + cfg.aclRefreshSeconds + 1) as real);
    OneStep(cfg, s0, later);
    s := Apply(cfg, s0, later);
    assert s.clock.Floor == captured + cfg.aclRefreshSeconds + 1;
    var t := s.t;
    assert [f][..0] == [];
    assert EnqueueAll(cfg, t, [f], true) == EnqueueOne(cfg, EnqueueAll(cfg, t, [], true), f, true);
    assert EnqueueAll(cfg, t, [f], true) == t;
    var swept := Apply(cfg, s, EnqueueTx([f], true));
    assert swept.clock == s.clock && swept.t.files[f.path].acl == s.t.files[f.path].acl;
    StillReadable(swept.t.files[f.path], sid, maxAgeSeconds, captured, s.clock);
  }
}
