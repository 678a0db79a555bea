/** What searches may rely on: in every reachable state the full-text rows of a path are the
    chunk list of one single claim of the file the manifest currently names. */
module IndexFreshness {
  import opened Wrappers
  import opened Extraction
  import opened NativeAcl
  import opened IndexTables
  import opened IndexSystem

  ghost predicate PublishedFrom(cfg: Config, t: Tables, path: string, pub: Publication) {
    && pub.job.path == path
    && path in t.files
    && pub.job.id == t.files[path].id
    && RowsAt(t.fts, path) == FtsRowsFor(cfg, pub.job, DocumentRows(pub.doc, cfg.maxTextChars))
  }

  ghost predicate FreshAt(cfg: Config, s: System, path: string) {
    && (path !in s.t.files ==> RowsAt(s.t.fts, path) == [])
    && (path in s.t.files && s.t.files[path].status == Ready ==> RowsAt(s.t.fts, path) != [])
    && (RowsAt(s.t.fts, path) != [] ==>
          path in s.published && PublishedFrom(cfg, s.t, path, s.published[path]))
  }

  lemma FreshAfterEnqueue(cfg: Config, s: System, batch: seq<FileInfo>, onlyIfMissing: bool, path: string)
    requires batch != [] && FreshAt(cfg, s, path)
    ensures FreshAt(cfg, Apply(cfg, s, EnqueueTx(batch, onlyIfMissing)), path)
  {
    hide RowsAt, DocumentRows, EnqueueAll, Listed, InitialStatus;
    EnqueueAllAt(cfg, s.t, batch, onlyIfMissing, path);
    var r := EnqueueAll(cfg, s.t, batch, onlyIfMissing);
    if path in r.files && FromBatch(cfg, batch, path, r.files[path]) {
      var k :| 0 <= k < |batch| && batch[k].path == path && r.files[path] == FreshRow(cfg, r.files[path].rowid, batch[k]);
      FreshRowIsNew(cfg, r.files[path].rowid, batch[k]);
    }
  }

  lemma FreshRowIsNew(cfg: Config, rowid: nat, f: FileInfo)
    ensures var row := FreshRow(cfg, rowid, f);
      && row.status != Ready && row.status != Running && row.attempts == 0 && row.rowid == rowid
      && row.acl.None? && row.aclCapturedAt.None?
      && row.nextAttemptAt.None?
  {}

  lemma FreshAfterPublish(cfg: Config, s: System, w: nat, doc: Document, acl: AclRecord, path: string)
    requires Enabled(cfg, s, PublishTx(w, doc, acl)) && FreshAt(cfg, s, path)
    ensures FreshAt(cfg, Apply(cfg, s, PublishTx(w, doc, acl)), path)
  {
    hide RowsAt, DocumentRows;
    PublishAt(cfg, s.t, s.workers[w].job, DocumentRows(doc, cfg.maxTextChars), PagesOf(doc), acl, path);
    hide Publish;
  }

  lemma FreshStep(cfg: Config, s: System, step: Step, path: string)
    requires Enabled(cfg, s, step) && FreshAt(cfg, s, path)
    ensures FreshAt(cfg, Apply(cfg, s, step), path)
  {
    match step {
      case EnqueueTx(batch, onlyIfMissing) => FreshAfterEnqueue(cfg, s, batch, onlyIfMissing, path);
      case PublishTx(w, doc, acl) => FreshAfterPublish(cfg, s, w, doc, acl, path);
      case DeleteTx(paths) =>
        DeleteAllAt(s.t, paths, path);
        hide RowsAt, DocumentRows, DeleteAll;
      case _ =>
        hide RowsAt, DocumentRows;
    }
  }

  lemma {:induction false} FreshRun(cfg: Config, s: System, steps: seq<Step>, path: string)
    requires ValidRun(cfg, s, steps) && FreshAt(cfg, s, path)
    ensures FreshAt(cfg, After(cfg, s, steps), path)
    decreases |steps|
  {
    hide Enabled, Apply, FreshAt;
    if steps != [] {
      FreshStep(cfg, s, steps[0], path);
      FreshRun(cfg, Apply(cfg, s, steps[0]), steps[1..], path);
    }
  }

  /** Index freshness: no reachable state shows text of another version, another claim, a
      deleted path, or a mixture; and a ready row always has text. */
  lemma {:induction false} IndexIsFresh(cfg: Config, s: System, path: string)
    requires Reachable(cfg, s)
    ensures path !in s.t.files ==> RowsAt(s.t.fts, path) == []
    ensures path in s.t.files && s.t.files[path].status == Ready ==> RowsAt(s.t.fts, path) != []
    ensures RowsAt(s.t.fts, path) != [] ==> path in s.published && PublishedFrom(cfg, s.t, path, s.published[path])
  {
    var n: nat, clock, steps: seq<Step> :|
      n > 0 && ValidRun(cfg, Start(n, clock), steps) && s == After(cfg, Start(n, clock), steps);
    FreshRun(cfg, Start(n, clock), steps, path);
  }

  /** What a search reads back for one path: its chunks once each, in order, under one share. */
  lemma {:induction false} StoredOrdinalsExact(cfg: Config, s: System, path: string, k: nat)
    requires Reachable(cfg, s) && k < |RowsAt(s.t.fts, path)|
    ensures var row := RowsAt(s.t.fts, path)[k];
      && row.ordinal == k
      && row.path == path
      && path in s.t.files && row.shareId == s.t.files[path].id.shareId
      && !Blank(row.text)
  {
    IndexIsFresh(cfg, s, path);
    var pub := s.published[path];
    DocumentRowsNumbered(pub.doc, cfg.maxTextChars);
  }

  /** How many rows a search can find for a path: none, or those of the document it was last
      published from. The search's bound per file holds for exactly the documents whose visible
      windows stay within it, and for every single text. */
  lemma {:induction false} StoredRowsBounded(cfg: Config, s: System, path: string)
    requires Reachable(cfg, s) && RowsAt(s.t.fts, path) != []
    ensures path in s.published
    ensures var doc := s.published[path].doc;
      && |RowsAt(s.t.fts, path)| == RowCount(DocumentBlocks(doc), cfg.maxTextChars)
      && (|RowsAt(s.t.fts, path)| <= MaxChunksPerFile(cfg.maxTextChars)
          <==> RowCount(DocumentBlocks(doc), cfg.maxTextChars) <= MaxChunksPerFile(cfg.maxTextChars))
      && (doc.Plain? && cfg.maxTextChars > 0 ==> |RowsAt(s.t.fts, path)| <= MaxChunksPerFile(cfg.maxTextChars))
  {
    IndexIsFresh(cfg, s, path);
    hide RowsAt, DocumentBlocks, RowCount, MaxChunksPerFile;
    var doc := s.published[path].doc;
    DocumentWithinBoundIff(doc, cfg.maxTextChars);
    if doc.Plain? && cfg.maxTextChars > 0 {
      PlainDocumentWithinBound(doc.text, cfg.maxTextChars);
    }
  }
}
