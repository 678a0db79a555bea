/** Searches over the index as the queue keeps it: the rows a search ranks are full-text rows of
    a reachable state, each joined with the manifest row of its path. */
module IndexSearch {
  import opened Wrappers
  import opened Extraction
  import opened NativeAcl
  import opened Text
  import opened IndexTables
  import opened IndexSystem
  import opened IndexFreshness
  import opened IndexAcl
  import opened Search

  /** A full-text row has a partner in the manifest, so it takes part in the join. */
  ghost predicate Partnered(t: Tables, i: nat) {
    i < |t.fts| && t.fts[i].path in t.files
  }

  ghost function Joined(t: Tables, i: nat): Candidate
    requires Partnered(t, i)
  {
    Candidate(t.fts[i].shareId, t.fts[i].path, t.fts[i].ext, t.files[t.fts[i].path].acl)
  }

  /** One tier as the engine ranks it: joined rows in some order, none twice. */
  ghost predicate Ranking(t: Tables, tier: seq<nat>) {
    && (forall k :: 0 <= k < |tier| ==> Partnered(t, tier[k]))
    && forall j, k :: 0 <= j < k < |tier| ==> tier[j] != tier[k]
  }

  ghost function JoinedRows(t: Tables, tier: seq<nat>): (rows: seq<Candidate>)
    requires Ranking(t, tier)
    ensures |rows| == |tier| && forall k :: 0 <= k < |tier| ==> rows[k] == Joined(t, tier[k])
  {
    seq(|tier|, k requires 0 <= k < |tier| => Joined(t, tier[k]))
  }

  ghost predicate Rankings(t: Tables, tiers: seq<seq<nat>>) {
    forall k :: 0 <= k < |tiers| ==> Ranking(t, tiers[k])
  }

  ghost function JoinedTiers(t: Tables, tiers: seq<seq<nat>>): (matches: seq<seq<Candidate>>)
    requires Rankings(t, tiers)
    ensures |matches| == |tiers| && forall k :: 0 <= k < |tiers| ==> matches[k] == JoinedRows(t, tiers[k])
  {
    seq(|tiers|, k requires 0 <= k < |tiers| => JoinedRows(t, tiers[k]))
  }

  // ----- rows of one document -----

  ghost function Positions(fts: seq<FtsRow>, path: string, n: nat): set<nat>
    requires n <= |fts|
  {
    set i: nat | i < n && fts[i].path == path
  }

  lemma {:induction false} PositionsCount(fts: seq<FtsRow>, path: string, n: nat)
    requires n <= |fts|
    ensures |Positions(fts, path, n)| == |RowsAt(fts[..n], path)|
  {
    if n == 0 {
      assert Positions(fts, path, n) == {};
    } else {
      PositionsCount(fts, path, n - 1);
      var last := [fts[n - 1]];
      assert fts[..n] == fts[..n - 1] + last;
      RowsAtAppend(fts[..n - 1], last, path);
      assert last[1..] == [] && RowsAt(last, path) == if fts[n - 1].path == path then last else [];
      hide RowsAt;
      if fts[n - 1].path == path {
        assert Positions(fts, path, n) == Positions(fts, path, n - 1) + {n - 1};
      } else {
        assert Positions(fts, path, n) == Positions(fts, path, n - 1);
      }
    }
  }

  lemma {:induction false} RowOfPath(fts: seq<FtsRow>, i: nat)
    requires i < |fts|
    ensures fts[i] in RowsAt(fts, fts[i].path)
  {
    if i > 0 {
      RowOfPath(fts[1..], i - 1);
    }
  }

  lemma {:induction false} CountIsSize(ctx: Context, t: Tables, tier: seq<nat>, key: string) returns (own: set<nat>)
    requires Ranking(t, tier)
    ensures |own| == CountOf(ctx, JoinedRows(t, tier), key)
    ensures forall i :: i in own ==> i in tier && i < |t.fts| && Fold(ctx.fold, t.fts[i].path) == key
  {
    hide Fold;
    own := {};
    if tier != [] {
      var rest := tier[1..];
      assert forall k :: 0 <= k < |rest| ==> rest[k] == tier[k + 1];
      assert JoinedRows(t, tier)[1..] == JoinedRows(t, rest);
      var others := CountIsSize(ctx, t, rest, key);
      assert tier[0] !in rest;
      assert forall i :: i in rest ==> i in tier;
      own := if Key(ctx, JoinedRows(t, tier)[0]) == key then others + {tier[0]} else others;
    }
  }

  /** No two paths of the index differ in case only. */
  ghost predicate DistinctUpToCase(ctx: Context, t: Tables) {
    forall p, q :: p in t.files && q in t.files && Fold(ctx.fold, p) == Fold(ctx.fold, q) ==> p == q
  }

  lemma {:induction false} CountWithinRows(ctx: Context, t: Tables, tier: seq<nat>, key: string, most: nat)
    requires Ranking(t, tier) && DistinctUpToCase(ctx, t)
    requires forall path :: path in t.files ==> |RowsAt(t.fts, path)| <= most
    ensures CountOf(ctx, JoinedRows(t, tier), key) <= most
  {
    hide CountOf, RowsAt, JoinedRows, Fold;
    var own := CountIsSize(ctx, t, tier, key);
    if own != {} {
      var i :| i in own;
      var path := t.fts[i].path;
      forall j | j in own
        ensures j in Positions(t.fts, path, |t.fts|)
      {}
      SubsetSize(own, Positions(t.fts, path, |t.fts|));
      PositionsCount(t.fts, path, |t.fts|);
      assert t.fts[..|t.fts|] == t.fts;
    }
  }

  lemma {:induction false} WhereCounts(ctx: Context, rows: seq<Candidate>, clauses: seq<Clause>, extensions: seq<string>,
                                       key: string)
    ensures CountOf(ctx, Where(rows, clauses, extensions), key) <= CountOf(ctx, rows, key)
  {
    hide Key, Selected;
    if rows != [] {
      WhereCounts(ctx, rows[1..], clauses, extensions, key);
      var rest := Where(rows[1..], clauses, extensions);
      assert ([rows[0]] + rest)[1..] == rest && [] + rest == rest;
    }
  }

  // ----- what a search shows -----

  /** Every document the index holds rows of stays within the row bound of the search. */
  ghost predicate WithinRowBound(cfg: Config, s: System) {
    forall path :: path in s.published && RowsAt(s.t.fts, path) != [] ==>
      RowCount(DocumentBlocks(s.published[path].doc), cfg.maxTextChars) <= MaxChunksPerFile(cfg.maxTextChars)
  }

  lemma {:induction false} ReachableRowsBounded(cfg: Config, s: System, path: string)
    requires Reachable(cfg, s) && WithinRowBound(cfg, s)
    ensures |RowsAt(s.t.fts, path)| <= MaxChunksPerFile(cfg.maxTextChars)
  {
    hide RowsAt, RowCount, MaxChunksPerFile, DocumentBlocks;
    if RowsAt(s.t.fts, path) != [] {
      StoredRowsBounded(cfg, s, path);
    }
  }

  lemma {:induction false} PrefixCounts(ctx: Context, rows: seq<Candidate>, n: nat, key: string)
    requires n <= |rows|
    ensures CountOf(ctx, rows[..n], key) <= CountOf(ctx, rows, key)
  {
    hide Key;
    if n > 0 {
      assert rows[..n][1..] == rows[1..][..n - 1];
      PrefixCounts(ctx, rows[1..], n - 1, key);
    }
  }

  lemma {:induction false} FetchedRowsBounded(ctx: Context, t: Tables, tier: seq<nat>, clauses: seq<Clause>,
                                              extensions: seq<string>, n: nat, most: nat)
    requires Ranking(t, tier) && DistinctUpToCase(ctx, t)
    requires forall path :: path in t.files ==> |RowsAt(t.fts, path)| <= most
    requires n <= |Where(JoinedRows(t, tier), clauses, extensions)|
    ensures AtMostPerDocument(ctx, Where(JoinedRows(t, tier), clauses, extensions)[..n], most)
  {
    hide CountOf, Where, RowsAt, Fold;
    var rows := JoinedRows(t, tier);
    var found := Where(rows, clauses, extensions);
    forall key
      ensures CountOf(ctx, found[..n], key) <= most
    {
      CountWithinRows(ctx, t, tier, key, most);
      WhereCounts(ctx, rows, clauses, extensions, key);
      PrefixCounts(ctx, found, n, key);
    }
  }

  /** Of the rows fetched of each tier that was cut, fewer than `bound` are refused. */
  ghost predicate RefusesLess(ctx: Context, tiers: seq<seq<Candidate>>, most: nat, limit: nat, bound: nat) {
    forall k :: 0 <= k < |tiers| ==>
      |tiers[k]| <= limit * most || RefusedCount(ctx, tiers[k][..limit * most]) < bound
  }

  /** From the extracted documents to the page shown: when every indexed document is within the
      row bound M, a search of any reachable index shows what the complete rankings would, although
      it fetches only a prefix of each and refuses up to M - 1 of the rows fetched of each. */
  lemma {:induction false} SearchShowsFullRankings(cfg: Config, s: System, ctx: Context, tiers: seq<seq<nat>>,
                                                   clauses: seq<Clause>, extensions: seq<string>, limit: nat)
    requires Reachable(cfg, s) && Rankings(s.t, tiers)
    requires WithinRowBound(cfg, s) && DistinctUpToCase(ctx, s.t)
    requires RefusesLess(ctx, SelectedTiers(JoinedTiers(s.t, tiers), clauses, extensions), MaxChunksPerFile(cfg.maxTextChars),
                         limit, MaxChunksPerFile(cfg.maxTextChars))
    ensures PageIsExact(ctx, SelectedTiers(JoinedTiers(s.t, tiers), clauses, extensions), MaxChunksPerFile(cfg.maxTextChars),
                        limit)
  {
    hide RowsAt, Where, AtMostPerDocument, MaxChunksPerFile, JoinedRows, Wasted, RefusedCount, PageIsExact;
    hide WithinRowBound, DistinctUpToCase;
    var found := SelectedTiers(JoinedTiers(s.t, tiers), clauses, extensions);
    var most := MaxChunksPerFile(cfg.maxTextChars);
    forall path | path in s.t.files
      ensures |RowsAt(s.t.fts, path)| <= most
    {
      ReachableRowsBounded(cfg, s, path);
    }
    forall k | 0 <= k < |found|
      ensures |found[k]| <= limit * most || Wasted(ctx, found[k][..limit * most], most) < most
    {
      if |found[k]| > limit * most {
        FetchedRowsBounded(ctx, s.t, tiers[k], clauses, extensions, limit * most, most);
        OnlyRefusedWasted(ctx, found[k][..limit * most], most);
      }
    }
    TopKExact(ctx, found, most, limit);
  }

  /** The full-text row a hit was made from. */
  lemma {:induction false} HitComesFrom(t: Tables, ctx: Context, tiers: seq<seq<nat>>, clauses: seq<Clause>,
                                        extensions: seq<string>, n: nat, limit: nat, k: nat) returns (i: nat)
    requires Rankings(t, tiers)
    requires k < |Hits(ctx, FirstOfEach(SelectedTiers(JoinedTiers(t, tiers), clauses, extensions), n), {}, limit)|
    ensures Partnered(t, i) && Accepted(ctx, Joined(t, i))
    ensures Hits(ctx, FirstOfEach(SelectedTiers(JoinedTiers(t, tiers), clauses, extensions), n), {}, limit)[k]
         == HitOf(ctx, Joined(t, i))
  {
    hide Hits, FirstOfEach, Where, Accepted, HitOf;
    var found := SelectedTiers(JoinedTiers(t, tiers), clauses, extensions);
    var row := HitsComeFrom(ctx, FirstOfEach(found, n), {}, limit, k);
    var tier := FirstOfEachFrom(found, n, row);
    WhereSelects(JoinedRows(t, tiers[tier]), clauses, extensions, row);
    var j :| 0 <= j < |tiers[tier]| && row == Joined(t, tiers[tier][j]);
    i := tiers[tier][j];
  }

  /** And every hit is a document the manifest lists, under its share, with rows that are exactly
      the text it was last published with. */
  lemma {:induction false} HitsAreCurrent(cfg: Config, s: System, ctx: Context, tiers: seq<seq<nat>>, clauses: seq<Clause>,
                                          extensions: seq<string>, n: nat, limit: nat, k: nat)
    requires Reachable(cfg, s) && Rankings(s.t, tiers)
    requires k < |Hits(ctx, FirstOfEach(SelectedTiers(JoinedTiers(s.t, tiers), clauses, extensions), n), {}, limit)|
    ensures var hit := Hits(ctx, FirstOfEach(SelectedTiers(JoinedTiers(s.t, tiers), clauses, extensions), n), {}, limit)[k];
      && hit.path in s.t.files && hit.shareId == s.t.files[hit.path].id.shareId
      && hit.path in s.published && PublishedFrom(cfg, s.t, hit.path, s.published[hit.path])
  {
    hide Hits, FirstOfEach, SelectedTiers, Accepted, RowsAt, PublishedFrom;
    var i := HitComesFrom(s.t, ctx, tiers, clauses, extensions, n, limit, k);
    var path := s.t.fts[i].path;
    RowOfPath(s.t.fts, i);
    IndexIsFresh(cfg, s, path);
    var r :| 0 <= r < |RowsAt(s.t.fts, path)| && RowsAt(s.t.fts, path)[r] == s.t.fts[i];
    StoredOrdinalsExact(cfg, s, path, r);
  }

  /** A search on behalf of a caller, run at a state's clock with the age limit of searches. */
  ghost predicate AuthorizedAt(ctx: Context, s: System, principals: set<string>, maxAgeSeconds: int) {
    ctx.principals == Some(principals) && ctx.now == s.clock.Floor && ctx.maxAgeSeconds == SearchMaxAge(maxAgeSeconds)
  }

  lemma {:induction false} RefusedIsNotShown(s: System, ctx: Context, tiers: seq<seq<nat>>, clauses: seq<Clause>,
                                             extensions: seq<string>, n: nat, limit: nat, k: nat, path: string,
                                             principals: set<string>, maxAgeSeconds: int)
    requires Rankings(s.t, tiers) && AuthorizedAt(ctx, s, principals, maxAgeSeconds)
    requires path in s.t.files ==> Refused(s.t.files[path], principals, maxAgeSeconds, s.clock)
    requires k < |Hits(ctx, FirstOfEach(SelectedTiers(JoinedTiers(s.t, tiers), clauses, extensions), n), {}, limit)|
    ensures Hits(ctx, FirstOfEach(SelectedTiers(JoinedTiers(s.t, tiers), clauses, extensions), n), {}, limit)[k].path != path
  {
    hide Hits, FirstOfEach, SelectedTiers, RelativeUnderRoot, AuthorizeAcl, SearchMaxAge;
    var i := HitComesFrom(s.t, ctx, tiers, clauses, extensions, n, limit, k);
  }

  /** A path whose row was sent back because its access list is overdue is on nobody's page: over
      any run in which it is not published again and the clock does not go back, whatever matches
      and however the tiers are cut. */
  lemma {:induction false} OverduePathNeverShown(cfg: Config, s: System, batch: seq<FileInfo>, onlyIfMissing: bool,
                                                 steps: seq<Step>, path: string, principals: set<string>, maxAgeSeconds: int,
                                                 ctx: Context, tiers: seq<seq<nat>>, clauses: seq<Clause>,
                                                 extensions: seq<string>, n: nat, limit: nat, k: nat)
    requires Reachable(cfg, s) && batch != []
    requires path in s.t.files && AclDue(cfg, s.t.files[path], s.clock)
    requires SearchMaxAge(maxAgeSeconds) <= cfg.aclRefreshSeconds < s.clock.Floor
    requires ValidRun(cfg, Apply(cfg, s, EnqueueTx(batch, onlyIfMissing)), steps)
    requires UneventfulRun(cfg, Apply(cfg, s, EnqueueTx(batch, onlyIfMissing)), steps, path)
    requires var end := After(cfg, Apply(cfg, s, EnqueueTx(batch, onlyIfMissing)), steps);
      && Rankings(end.t, tiers) && AuthorizedAt(ctx, end, principals, maxAgeSeconds)
      && k < |Hits(ctx, FirstOfEach(SelectedTiers(JoinedTiers(end.t, tiers), clauses, extensions), n), {}, limit)|
    ensures var end := After(cfg, Apply(cfg, s, EnqueueTx(batch, onlyIfMissing)), steps);
      Hits(ctx, FirstOfEach(SelectedTiers(JoinedTiers(end.t, tiers), clauses, extensions), n), {}, limit)[k].path != path
  {
    assert Enabled(cfg, s, EnqueueTx(batch, onlyIfMissing));
    hide Enabled, Apply, After, Hits, FirstOfEach, SelectedTiers, Refused, SearchMaxAge;
    var end := After(cfg, Apply(cfg, s, EnqueueTx(batch, onlyIfMissing)), steps);
    StaleAclStaysHidden(cfg, s, batch, onlyIfMissing, steps, path, principals, maxAgeSeconds);
    RefusedIsNotShown(end, ctx, tiers, clauses, extensions, n, limit, k, path, principals, maxAgeSeconds);
  }
}
