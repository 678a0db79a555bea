/** Search over the local index: scope clauses, the over-fetched candidate rows, and the distinct
    documents returned. */
module Search {
  import opened Wrappers
  import opened Extraction
  import opened Text
  import opened LikePattern
  import opened NativeAcl

  const MAX_RESULTS: nat := 50

  /** One full-text row joined with its manifest row, as the engine hands it over. */
  datatype Candidate = Candidate(shareId: string, path: string, ext: string, acl: Option<AclRecord>)

  datatype Hit = Hit(shareId: string, relativePath: string, path: string)

  /** What a search is run with: assigned shares and their roots, the caller's principals when
      the search is authorized, and the platform's per-character case folding. */
  datatype Context = Context(allowed: map<string, string>, principals: Option<set<string>>, maxAgeSeconds: int, now: int,
                             fold: char -> string)

  function Backslashes(s: string): string {
    Replace(s, '/', "\\")
  }

  function NormalizedRoot(root: string): string {
    StripRight(Backslashes(root), '\\')
  }

  function NormalizedPath(path: string): string {
    Trim(Backslashes(path))
  }

  predicate HasDots(parts: seq<string>) {
    exists k :: 0 <= k < |parts| && (parts[k] == "." || parts[k] == "..")
  }

  function From(s: string, n: nat): string {
    if n <= |s| then s[n..] else ""
  }

  function RelativeUnderRoot(fold: char -> string, root: string, path: string): Option<string> {
    var normalizedRoot := NormalizedRoot(root);
    var normalizedPath := NormalizedPath(path);
    var prefix := normalizedRoot + "\\";
    if normalizedRoot == "" || !(Fold(fold, prefix) <= Fold(fold, normalizedPath)) then None
    else
      var relative := Strip(From(normalizedPath, |prefix|), '\\');
      var parts := Components(relative, '\\');
      if parts == [] || HasDots(parts) then None else Some(Join(parts, '\\'))
  }

  /** Every accepted path starts, up to case folding, with its root and a separator, and its
      relative form has components but no empty, "." or ".." one. */
  lemma RelativeIsContained(fold: char -> string, root: string, path: string)
    requires RelativeUnderRoot(fold, root, path).Some?
    ensures Fold(fold, NormalizedRoot(root) + "\\") <= Fold(fold, NormalizedPath(path))
    ensures var parts := Components(RelativeUnderRoot(fold, root, path).value, '\\');
      && parts != [] && !HasDots(parts)
      && parts == Components(From(NormalizedPath(path), |NormalizedRoot(root)| + 1), '\\')
  {
    var rest := From(NormalizedPath(path), |NormalizedRoot(root)| + 1);
    StripComponents(rest, '\\');
    ComponentsProperties(Strip(rest, '\\'), '\\');
    ComponentsOfJoin(Components(Strip(rest, '\\'), '\\'), '\\');
  }

  predicate FoldsToOne(fold: char -> string, s: string) {
    forall k :: 0 <= k < |s| ==> |fold(s[k])| == 1
  }

  lemma {:induction false} FoldOnePerChar(fold: char -> string, s: string)
    requires FoldsToOne(fold, s)
    ensures |Fold(fold, s)| == |s|
  {
    if s != "" {
      assert forall k :: 0 <= k < |s[1..]| ==> s[1..][k] == s[k + 1];
      FoldOnePerChar(fold, s[1..]);
    }
  }

  lemma PrefixesOfOne(a: string, b: string, whole: string)
    requires a <= whole && b <= whole
    ensures a == b <==> |a| == |b|
  {}

  /** Where the source cuts an accepted path, counting the root's own characters: right after
      the root, up to case, exactly when what is cut off folds to as many characters as the root
      with its separator. It does when every character folds to one. The relative path is what
      follows the cut. */
  lemma RelativeLocatesFile(fold: char -> string, root: string, path: string)
    requires RelativeUnderRoot(fold, root, path).Some?
    ensures var prefix, normalized := NormalizedRoot(root) + "\\", NormalizedPath(path);
      && |prefix| <= |normalized|
      && (Fold(fold, normalized[..|prefix|]) == Fold(fold, prefix)
          <==> |Fold(fold, normalized[..|prefix|])| == |Fold(fold, prefix)|)
      && (FoldsToOne(fold, prefix) && FoldsToOne(fold, normalized) ==>
            Fold(fold, normalized[..|prefix|]) == Fold(fold, prefix))
      && Components(normalized[|prefix|..], '\\') == Components(RelativeUnderRoot(fold, root, path).value, '\\')
  {
    RelativeIsContained(fold, root, path);
    var prefix, normalized := NormalizedRoot(root) + "\\", NormalizedPath(path);
    ComponentsOfNothing('\\');
    hide Components, NormalizedRoot, NormalizedPath, RelativeUnderRoot, Fold;
    var start := normalized[..|prefix|];
    assert normalized == start + normalized[|prefix|..];
    FoldAppend(fold, start, normalized[|prefix|..]);
    PrefixesOfOne(Fold(fold, start), Fold(fold, prefix), Fold(fold, normalized));
    if FoldsToOne(fold, prefix) && FoldsToOne(fold, normalized) {
      FoldOnePerChar(fold, prefix);
      FoldOnePerChar(fold, start);
    }
  }

  const SHARP_S: char := '\U{00DF}'

  /** The part of case folding that turns one character into two. */
  function SharpSFold(c: char): string {
    if c == SHARP_S then "ss" else [c]
  }

  lemma PlainTextUnchanged(s: string)
    requires '/' !in s && s != "" && s[|s| - 1] != '\\' && !IsSpace(s[0]) && !IsSpace(s[|s| - 1])
    ensures NormalizedRoot(s) == s && NormalizedPath(s) == s
  {
    ReplaceAbsent(s, '/', "\\");
  }

  const SHARP_PATH: string := [SHARP_S, SHARP_S] + "\\abc"

  lemma FoldLongPath()
    ensures Fold(SharpSFold, "ssss\\") <= Fold(SharpSFold, SHARP_PATH)
    ensures Fold(SharpSFold, SHARP_PATH[..5]) == "ssss\\ab" && Fold(SharpSFold, "ssss\\") == "ssss\\"
  {
    FoldAbsent("ssss\\");
    FoldAbsent("\\abc");
    FoldAbsent("\\ab");
    FoldAppend(SharpSFold, [SHARP_S, SHARP_S], "\\abc");
    FoldAppend(SharpSFold, [SHARP_S, SHARP_S], "\\ab");
    assert [SHARP_S, SHARP_S][1..] == [SHARP_S] && [SHARP_S][1..] == [];
    assert Fold(SharpSFold, [SHARP_S, SHARP_S]) == "ss" + ("ss" + "") == "ssss";
    assert SHARP_PATH[..5] == [SHARP_S, SHARP_S] + "\\ab";
    assert "ssss" + "\\abc" == "ssss\\" + "abc";
  }

  /** With sharp s, which folds to two characters, the cut can fall elsewhere: the root is
      spelt with "ss", the path with sharp s, and two leading characters of the relative path
      are lost. */
  lemma LongFoldCutsTooFar()
    ensures RelativeUnderRoot(SharpSFold, "ssss", SHARP_PATH) == Some("c")
    ensures Fold(SharpSFold, SHARP_PATH[..5]) != Fold(SharpSFold, "ssss\\")
  {
    hide *;
    NormalizedExamples();
    FoldLongPath();
    CutLongPath();
    RelativeFromParts(SharpSFold, "ssss", SHARP_PATH, "ssss\\", "c");
  }

  lemma NormalizedExamples()
    ensures NormalizedRoot("ssss") == "ssss" && NormalizedPath(SHARP_PATH) == SHARP_PATH
  {
    hide Replace, NormalizedRoot, NormalizedPath, StripRight, Trim;
    PlainTextUnchanged("ssss");
    PlainTextUnchanged(SHARP_PATH);
  }

  lemma {:induction false} RelativeFromParts(fold: char -> string, root: string, path: string, prefix: string, part: string)
    requires NormalizedRoot(root) != "" && NormalizedRoot(root) + "\\" == prefix
    requires Fold(fold, prefix) <= Fold(fold, NormalizedPath(path))
    requires Components(Strip(From(NormalizedPath(path), |prefix|), '\\'), '\\') == [part]
    requires part != "." && part != ".."
    ensures RelativeUnderRoot(fold, root, path) == Some(part)
  {
    hide Components, Strip, From, Fold, NormalizedRoot, NormalizedPath;
  }

  lemma CutLongPath()
    ensures Components(Strip(From(SHARP_PATH, 5), '\\'), '\\') == ["c"]
  {
    assert From(SHARP_PATH, 5) == "c" && Strip("c", '\\') == "c";
    assert NoneContains(["c"], '\\') && Join(["c"], '\\') == "c";
    ComponentsOfJoin(["c"], '\\');
  }

  lemma {:induction false} ReplaceAbsent(s: string, needle: char, replacement: string)
    requires needle !in s
    ensures Replace(s, needle, replacement) == s
  {
    if s != "" {
      ReplaceAbsent(s[1..], needle, replacement);
    }
  }

  lemma {:induction false} FoldAbsent(s: string)
    requires SHARP_S !in s
    ensures Fold(SharpSFold, s) == s
  {
    if s != "" {
      FoldAbsent(s[1..]);
    }
  }

  // ----- scopes -----

  datatype Scope = Scope(shareId: string, folderPath: string)

  datatype Clause = Clause(shareId: string, folder: Option<string>)

  function FolderParts(folderPath: string): seq<string> {
    WithoutDots(Components(Strip(Replace(folderPath, '\\', "/"), '/'), '/'))
  }

  /** The absolute folder a scope names, with its closing separator. */
  function ScopeFolder(root: string, parts: seq<string>): string {
    StripRight(root + "\\" + Join(parts, '\\'), '\\') + "\\"
  }

  function ClauseOf(ctx: Context, scope: Scope): Result<Clause, string> {
    if scope.shareId !in ctx.allowed then Failure("search scope is not assigned to this agent")
    else
      var root := NormalizedRoot(ctx.allowed[scope.shareId]);
      var parts := FolderParts(scope.folderPath);
      if root == "" then Failure("assigned share is missing its canonical path")
      else if ".." in parts then Failure("search folder is outside its assigned share")
      else if parts == [] then Success(Clause(scope.shareId, None))
      else Success(Clause(scope.shareId, Some(EscapeLike(ScopeFolder(root, parts)) + "%")))
  }

  predicate Satisfies(row: Candidate, clause: Clause) {
    row.shareId == clause.shareId && (clause.folder.None? || Like(clause.folder.value, row.path))
  }

  /** What a scope means: the row's share was asked for, and its path starts with the folder. */
  predicate InScope(ctx: Context, row: Candidate, scope: Scope) {
    && row.shareId == scope.shareId
    && scope.shareId in ctx.allowed
    && var parts := FolderParts(scope.folderPath);
       && ".." !in parts
       && (parts == [] ||
           PrefixIgnoringCase(ScopeFolder(NormalizedRoot(ctx.allowed[scope.shareId]), parts), row.path))
  }

  /** The compiled clause selects exactly the rows in the scope. */
  lemma ClauseMeansScope(ctx: Context, scope: Scope, row: Candidate)
    requires ClauseOf(ctx, scope).Success?
    ensures Satisfies(row, ClauseOf(ctx, scope).value) <==> InScope(ctx, row, scope)
  {
    var parts := FolderParts(scope.folderPath);
    if parts != [] {
      EscapedLikeIsPrefix(ScopeFolder(NormalizedRoot(ctx.allowed[scope.shareId]), parts), row.path);
    }
  }

  method BuildClauses(ctx: Context, scopes: seq<Scope>) returns (result: Result<seq<Clause>, string>)
    ensures result.Success? ==>
      && |result.value| == |scopes|
      && forall k :: 0 <= k < |scopes| ==> ClauseOf(ctx, scopes[k]) == Success(result.value[k])
    ensures result.Failure? <==> exists k :: 0 <= k < |scopes| && ClauseOf(ctx, scopes[k]).Failure?
  {
    var clauses: seq<Clause> := [];
    for k := 0 to |scopes|
      invariant |clauses| == k
      invariant forall j :: 0 <= j < k ==> ClauseOf(ctx, scopes[j]) == Success(clauses[j])
    {
      var clause := ClauseOf(ctx, scopes[k]);
      if clause.Failure? {
        return Failure(clause.error);
      }
      clauses := clauses + [clause.value];
    }
    result := Success(clauses);
  }

  // ----- distinct documents from ranked rows -----

  function Key(ctx: Context, row: Candidate): string {
    Fold(ctx.fold, row.path)
  }

  /** A row that may be shown: under the root of an assigned share, and readable by the caller. */
  predicate Accepted(ctx: Context, row: Candidate) {
    && row.shareId in ctx.allowed
    && RelativeUnderRoot(ctx.fold, ctx.allowed[row.shareId], row.path).Some?
    && (ctx.principals.None? || AuthorizeAcl(row.acl, ctx.principals.value, ctx.maxAgeSeconds, ctx.now).allowed)
  }

  function HitOf(ctx: Context, row: Candidate): Hit
    requires Accepted(ctx, row)
  {
    Hit(row.shareId, RelativeUnderRoot(ctx.fold, ctx.allowed[row.shareId], row.path).value, row.path)
  }

  /** The first `limit` accepted documents not already in `seen`, in rank order. */
  function Hits(ctx: Context, rows: seq<Candidate>, seen: set<string>, limit: nat): seq<Hit> {
    if rows == [] || limit == 0 then []
    else if !Accepted(ctx, rows[0]) || Key(ctx, rows[0]) in seen then Hits(ctx, rows[1..], seen, limit)
    else [HitOf(ctx, rows[0])] + Hits(ctx, rows[1..], seen + {Key(ctx, rows[0])}, limit - 1)
  }

  lemma {:induction false} HitsStep(ctx: Context, done: seq<Hit>, rows: seq<Candidate>, at: nat, seen: set<string>, limit: nat)
    requires at < |rows| && limit > 0
    ensures !Accepted(ctx, rows[at]) || Key(ctx, rows[at]) in seen ==>
      done + Hits(ctx, rows[at..], seen, limit) == done + Hits(ctx, rows[at + 1..], seen, limit)
    ensures Accepted(ctx, rows[at]) && Key(ctx, rows[at]) !in seen ==>
      done + Hits(ctx, rows[at..], seen, limit)
      == done + [HitOf(ctx, rows[at])] + Hits(ctx, rows[at + 1..], seen + {Key(ctx, rows[at])}, limit - 1)
  {
    hide Accepted, Key, HitOf;
    assert rows[at..][1..] == rows[at + 1..];
  }

  lemma {:induction false} NoHits(ctx: Context, rows: seq<Candidate>, seen: set<string>, limit: nat)
    requires |rows| == 0 || limit == 0
    ensures Hits(ctx, rows, seen, limit) == []
  {}

  method CollectHits(ctx: Context, rows: seq<Candidate>, limit: nat) returns (hits: seq<Hit>)
    requires limit > 0
    ensures hits == Hits(ctx, rows, {}, limit)
  {
    hide Hits, RelativeUnderRoot, AuthorizeAcl, Fold;
    hits := [];
    var seenPaths: set<string> := {};
    var at := 0;
    assert rows[0..] == rows;
    while at < |rows|
      invariant 0 <= at <= |rows|
      invariant |hits| < limit
      invariant Hits(ctx, rows, {}, limit) == hits + Hits(ctx, rows[at..], seenPaths, limit - |hits|)
    {
      HitsStep(ctx, hits, rows, at, seenPaths, limit - |hits|);
      var row := rows[at];
      at := at + 1;
      if row.shareId !in ctx.allowed { continue; }
      var relative := RelativeUnderRoot(ctx.fold, ctx.allowed[row.shareId], row.path);
      if relative.None? || Fold(ctx.fold, row.path) in seenPaths { continue; }
      if ctx.principals.Some? {
        var decision := AuthorizeAcl(row.acl, ctx.principals.value, ctx.maxAgeSeconds, ctx.now);
        if !decision.allowed { continue; }
      }
      seenPaths := seenPaths + {Fold(ctx.fold, row.path)};
      hits := hits + [Hit(row.shareId, relative.value, row.path)];
      if |hits| >= limit {
        NoHits(ctx, rows[at..], seenPaths, 0);
        return;
      }
    }
    NoHits(ctx, rows[at..], seenPaths, limit - |hits|);
  }

  // ----- why fetching a prefix of each ranking is enough -----

  ghost function Keys(ctx: Context, rows: seq<Candidate>): set<string> {
    set k | 0 <= k < |rows| :: Key(ctx, rows[k])
  }

  ghost function CountOf(ctx: Context, rows: seq<Candidate>, key: string): nat {
    if rows == [] then 0 else (if Key(ctx, rows[0]) == key then 1 else 0) + CountOf(ctx, rows[1..], key)
  }

  ghost predicate AtMostPerDocument(ctx: Context, rows: seq<Candidate>, most: nat) {
    forall key :: CountOf(ctx, rows, key) <= most
  }

  ghost function OtherThan(ctx: Context, rows: seq<Candidate>, key: string): seq<Candidate> {
    if rows == [] then []
    else (if Key(ctx, rows[0]) == key then [] else [rows[0]]) + OtherThan(ctx, rows[1..], key)
  }

  lemma {:induction false} OtherThanCounts(ctx: Context, rows: seq<Candidate>, key: string, other: string)
    ensures |rows| == |OtherThan(ctx, rows, key)| + CountOf(ctx, rows, key)
    ensures CountOf(ctx, OtherThan(ctx, rows, key), other) == if other == key then 0 else CountOf(ctx, rows, other)
  {
    hide Key;
    if rows != [] {
      OtherThanCounts(ctx, rows[1..], key, other);
      var rest := OtherThan(ctx, rows[1..], key);
      if Key(ctx, rows[0]) != key {
        assert ([rows[0]] + rest)[1..] == rest;
      } else {
        assert [] + rest == rest;
      }
    }
  }

  lemma {:induction false} CountPositive(ctx: Context, rows: seq<Candidate>, key: string)
    ensures key in Keys(ctx, rows) <==> CountOf(ctx, rows, key) > 0
  {
    hide Key;
    if rows != [] {
      CountPositive(ctx, rows[1..], key);
      assert forall k :: 0 <= k < |rows[1..]| ==> rows[1..][k] == rows[k + 1];
      if key in Keys(ctx, rows[1..]) {
        var k :| 0 <= k < |rows[1..]| && Key(ctx, rows[1..][k]) == key;
        assert Key(ctx, rows[k + 1]) == key;
      }
      if key in Keys(ctx, rows) {
        var k :| 0 <= k < |rows| && Key(ctx, rows[k]) == key;
        assert k > 0 ==> Key(ctx, rows[1..][k - 1]) == key;
      }
    }
  }

  lemma OneMore(keys: set<string>, key: string)
    requires key !in keys
    ensures |keys + {key}| == |keys| + 1
  {}

  lemma MulSuccessor(a: nat, b: nat)
    ensures a * (b + 1) == a * b + a
  {}

  /** The pigeonhole: few rows per document means many documents. */
  lemma {:induction false} ManyDocuments(ctx: Context, rows: seq<Candidate>, most: nat)
    requires AtMostPerDocument(ctx, rows, most)
    ensures |rows| <= most * |Keys(ctx, rows)|
    decreases |rows|
  {
    hide Key;
    if rows != [] {
      var key := Key(ctx, rows[0]);
      var others := OtherThan(ctx, rows, key);
      OtherThanCounts(ctx, rows, key, key);
      CountPositive(ctx, rows, key);
      forall other
        ensures CountOf(ctx, others, other) <= most
        ensures other in Keys(ctx, others) <==> other in Keys(ctx, rows) - {key}
      {
        OtherThanCounts(ctx, rows, key, other);
        CountPositive(ctx, rows, other);
        CountPositive(ctx, others, other);
      }
      assert Keys(ctx, others) == Keys(ctx, rows) - {key};
      assert key in Keys(ctx, rows);
      ManyDocuments(ctx, others, most);
      hide Keys, OtherThan, CountOf;
      OneMore(Keys(ctx, others), key);
      assert Keys(ctx, rows) == Keys(ctx, others) + {key};
      MulSuccessor(most, |Keys(ctx, others)|);
    }
  }

  /** The documents among some rows that may be shown. */
  ghost function ShownKeys(ctx: Context, rows: seq<Candidate>): set<string> {
    set k | 0 <= k < |rows| && Accepted(ctx, rows[k]) :: Key(ctx, rows[k])
  }

  lemma ShownKeysSplit(ctx: Context, rows: seq<Candidate>)
    requires rows != []
    ensures ShownKeys(ctx, rows) == ShownKeys(ctx, rows[1..]) + if Accepted(ctx, rows[0]) then {Key(ctx, rows[0])} else {}
  {
    hide Key, Accepted;
    assert forall k :: 0 < k < |rows| ==> rows[1..][k - 1] == rows[k];
    assert forall k :: 0 <= k < |rows[1..]| ==> rows[1..][k] == rows[k + 1];
  }

  lemma {:induction false} HitsCount(ctx: Context, rows: seq<Candidate>, seen: set<string>, limit: nat)
    ensures var shown := |ShownKeys(ctx, rows) - seen|;
      |Hits(ctx, rows, seen, limit)| == if shown < limit then shown else limit
    decreases |rows|
  {
    hide Key, Accepted, HitOf;
    if rows == [] {
      assert ShownKeys(ctx, rows) - seen == {};
    } else if limit > 0 {
      var key := Key(ctx, rows[0]);
      ShownKeysSplit(ctx, rows);
      if Accepted(ctx, rows[0]) {
        FirstHit(ctx, rows, seen, limit);
        hide *;
        var rest := ShownKeys(ctx, rows[1..]);
        if key in seen {
          HitsCount(ctx, rows[1..], seen, limit);
          OldKey(rest, seen, key);
        } else {
          HitsCount(ctx, rows[1..], seen + {key}, limit - 1);
          NewKey(rest, seen, key);
        }
      } else {
        assert ShownKeys(ctx, rows) == ShownKeys(ctx, rows[1..]);
        HitsCount(ctx, rows[1..], seen, limit);
      }
    }
  }

  lemma OldKey(rest: set<string>, seen: set<string>, key: string)
    requires key in seen
    ensures (rest + {key}) - seen == rest - seen
  {}

  lemma FirstHit(ctx: Context, rows: seq<Candidate>, seen: set<string>, limit: nat)
    requires rows != [] && limit > 0 && Accepted(ctx, rows[0])
    ensures |Hits(ctx, rows, seen, limit)| == if Key(ctx, rows[0]) in seen then |Hits(ctx, rows[1..], seen, limit)|
                                              else 1 + |Hits(ctx, rows[1..], seen + {Key(ctx, rows[0])}, limit - 1)|
  {
    hide Key, Accepted, HitOf;
  }

  lemma NewKey(rest: set<string>, seen: set<string>, key: string)
    requires key !in seen
    ensures |(rest + {key}) - seen| == |rest - (seen + {key})| + 1
  {
    assert (rest + {key}) - seen == (rest - (seen + {key})) + {key};
    OneMore(rest - (seen + {key}), key);
  }

  /** Once the limit is reached, later rows do not matter. */
  lemma {:induction false} FullHitsIgnoreRest(ctx: Context, rows: seq<Candidate>, rest: seq<Candidate>,
                                              seen: set<string>, limit: nat)
    requires |Hits(ctx, rows, seen, limit)| == limit
    ensures Hits(ctx, rows + rest, seen, limit) == Hits(ctx, rows, seen, limit)
    decreases |rows|
  {
    hide Key, Accepted, HitOf;
    if rows != [] && limit > 0 {
      assert (rows + rest)[1..] == rows[1..] + rest;
      if !Accepted(ctx, rows[0]) || Key(ctx, rows[0]) in seen {
        FullHitsIgnoreRest(ctx, rows[1..], rest, seen, limit);
      } else {
        FullHitsIgnoreRest(ctx, rows[1..], rest, seen + {Key(ctx, rows[0])}, limit - 1);
      }
    }
  }

  /** The rankings of the tiers one after the other, each cut to its first n rows. */
  ghost function FirstOfEach(tiers: seq<seq<Candidate>>, n: nat): seq<Candidate> {
    if tiers == [] then []
    else (if |tiers[0]| <= n then tiers[0] else tiers[0][..n]) + FirstOfEach(tiers[1..], n)
  }

  ghost function Ranked(tiers: seq<seq<Candidate>>): seq<Candidate> {
    if tiers == [] then [] else tiers[0] + Ranked(tiers[1..])
  }

  /** How many of the rows of one document may be shown. */
  ghost function ShownCount(ctx: Context, rows: seq<Candidate>, key: string): nat {
    if rows == [] then 0
    else
      var last := rows[|rows| - 1];
      ShownCount(ctx, rows[..|rows| - 1], key) + if Accepted(ctx, last) && Key(ctx, last) == key then 1 else 0
  }

  /** A row that does not help to fill the page: it is refused, or its document has had `most`
      rows before it. */
  ghost predicate Wasteful(ctx: Context, before: seq<Candidate>, row: Candidate, most: nat) {
    !Accepted(ctx, row) || ShownCount(ctx, before, Key(ctx, row)) >= most
  }

  ghost function Wasted(ctx: Context, rows: seq<Candidate>, most: nat): nat {
    if rows == [] then 0
    else
      var init, last := rows[..|rows| - 1], rows[|rows| - 1];
      Wasted(ctx, init, most) + if Wasteful(ctx, init, last, most) then 1 else 0
  }

  ghost function Useful(ctx: Context, rows: seq<Candidate>, most: nat): seq<Candidate> {
    if rows == [] then []
    else
      var init, last := rows[..|rows| - 1], rows[|rows| - 1];
      Useful(ctx, init, most) + if Wasteful(ctx, init, last, most) then [] else [last]
  }

  lemma {:induction false} CountOfLast(ctx: Context, rows: seq<Candidate>, last: Candidate, key: string)
    ensures CountOf(ctx, rows + [last], key) == CountOf(ctx, rows, key) + if Key(ctx, last) == key then 1 else 0
  {
    hide Key;
    if rows == [] {
      assert [] + [last] == [last] && [last][1..] == [];
    } else {
      assert (rows + [last])[1..] == rows[1..] + [last];
      CountOfLast(ctx, rows[1..], last, key);
    }
  }

  lemma {:induction false} UsefulRows(ctx: Context, rows: seq<Candidate>, most: nat, key: string)
    ensures |rows| == |Useful(ctx, rows, most)| + Wasted(ctx, rows, most)
    ensures var shown := ShownCount(ctx, rows, key);
      CountOf(ctx, Useful(ctx, rows, most), key) == if shown < most then shown else most
    ensures forall k :: 0 <= k < |Useful(ctx, rows, most)| ==>
      Useful(ctx, rows, most)[k] in rows && Accepted(ctx, Useful(ctx, rows, most)[k])
  {
    hide Key, Accepted;
    if rows != [] {
      var init, last := rows[..|rows| - 1], rows[|rows| - 1];
      UsefulRows(ctx, init, most, key);
      assert rows == init + [last];
      CountOfLast(ctx, Useful(ctx, init, most), last, key);
      hide CountOf;
      assert Useful(ctx, init, most) + [] == Useful(ctx, init, most);
    }
  }

  /** The pigeonhole with waste: rows that are not wasted belong to many documents. */
  lemma {:induction false} ManyShown(ctx: Context, rows: seq<Candidate>, most: nat)
    ensures |rows| <= most * |ShownKeys(ctx, rows)| + Wasted(ctx, rows, most)
  {
    hide Key, Accepted, CountOf, ShownCount, Wasted;
    var useful := Useful(ctx, rows, most);
    UsefulRows(ctx, rows, most, "");
    forall key
      ensures CountOf(ctx, useful, key) <= most
    {
      UsefulRows(ctx, rows, most, key);
    }
    hide Useful;
    assert Keys(ctx, useful) <= ShownKeys(ctx, rows);
    ManyDocuments(ctx, useful, most);
    SubsetSize(Keys(ctx, useful), ShownKeys(ctx, rows));
    MulMonotone(most, |Keys(ctx, useful)|, |ShownKeys(ctx, rows)|);
  }

  lemma MulMonotone(most: nat, a: nat, b: nat)
    requires a <= b
    ensures most * a <= most * b
  {}

  lemma EnoughDocuments(limit: nat, most: nat, documents: nat, wasted: nat)
    requires limit * most <= most * documents + wasted && wasted < most
    ensures limit <= documents
  {
    if limit > documents {
      MulMonotone(most, documents + 1, limit);
    }
  }

  lemma {:induction false} CutTierFillsPage(ctx: Context, done: seq<Candidate>, cut: seq<Candidate>, most: nat, limit: nat)
    requires |cut| == limit * most && Wasted(ctx, cut, most) < most
    ensures |Hits(ctx, done + cut, {}, limit)| == limit
  {
    hide Key, Accepted, HitOf, Hits, Wasted;
    var all := done + cut;
    ManyShown(ctx, cut, most);
    EnoughDocuments(limit, most, |ShownKeys(ctx, cut)|, Wasted(ctx, cut, most));
    assert forall k :: 0 <= k < |cut| ==> all[|done| + k] == cut[k];
    assert ShownKeys(ctx, cut) <= ShownKeys(ctx, all);
    hide ShownKeys;
    SubsetSize(ShownKeys(ctx, cut), ShownKeys(ctx, all));
    HitsCount(ctx, all, {}, limit);
    assert ShownKeys(ctx, all) - {} == ShownKeys(ctx, all);
  }

  lemma {:induction false} SubsetSize<T>(a: set<T>, b: set<T>)
    requires a <= b
    ensures |a| <= |b|
  {
    if a != {} {
      var x :| x in a;
      SubsetSize(a - {x}, b - {x});
    }
  }

  /** Among the rows fetched of each tier that was cut, fewer than `bound` are wasted. */
  ghost predicate WastesLess(ctx: Context, tiers: seq<seq<Candidate>>, most: nat, limit: nat, bound: nat) {
    forall k :: 0 <= k < |tiers| ==>
      |tiers[k]| <= limit * most || Wasted(ctx, tiers[k][..limit * most], most) < bound
  }

  /** The page of the cut tiers is the page of the complete rankings. */
  ghost predicate PageIsExact(ctx: Context, tiers: seq<seq<Candidate>>, most: nat, limit: nat) {
    Hits(ctx, FirstOfEach(tiers, limit * most), {}, limit) == Hits(ctx, Ranked(tiers), {}, limit)
  }

  lemma {:induction false} PrefixesSuffice(ctx: Context, done: seq<Candidate>, tiers: seq<seq<Candidate>>, most: nat,
                                           limit: nat)
    requires WastesLess(ctx, tiers, most, limit, most)
    ensures Hits(ctx, done + FirstOfEach(tiers, limit * most), {}, limit) == Hits(ctx, done + Ranked(tiers), {}, limit)
    decreases |tiers|
  {
    hide Hits, Accepted, Wasted;
    if tiers != [] {
      var tier, n := tiers[0], limit * most;
      var restCut, rest := FirstOfEach(tiers[1..], n), Ranked(tiers[1..]);
      assert WastesLess(ctx, tiers[1..], most, limit, most) by {
        assert forall k :: 0 <= k < |tiers[1..]| ==> tiers[1..][k] == tiers[k + 1];
      }
      if |tier| <= n {
        PrefixesSuffice(ctx, done + tier, tiers[1..], most, limit);
        assert done + (tier + restCut) == done + tier + restCut;
        assert done + (tier + rest) == done + tier + rest;
      } else {
        CutTierFillsPage(ctx, done, tier[..n], most, limit);
        FullHitsIgnoreRest(ctx, done + tier[..n], restCut, {}, limit);
        FullHitsIgnoreRest(ctx, done + tier[..n], tier[n..] + rest, {}, limit);
        assert done + (tier[..n] + restCut) == done + tier[..n] + restCut;
        assert done + (tier + rest) == done + tier[..n] + (tier[n..] + rest);
      }
    }
  }

  /** Top-k from truncated rankings is exact when each cut tier wasted fewer than `most` of the
      rows fetched, whatever else is refused or repeated. */
  lemma {:induction false} TopKExact(ctx: Context, tiers: seq<seq<Candidate>>, most: nat, limit: nat)
    requires WastesLess(ctx, tiers, most, limit, most)
    ensures PageIsExact(ctx, tiers, most, limit)
  {
    hide Hits, WastesLess;
    PrefixesSuffice(ctx, [], tiers, most, limit);
    assert [] + FirstOfEach(tiers, limit * most) == FirstOfEach(tiers, limit * most);
    assert [] + Ranked(tiers) == Ranked(tiers);
  }

  // ----- and why no more waste is allowed -----

  ghost function Copies(row: Candidate, n: nat): (rows: seq<Candidate>)
    ensures |rows| == n && forall k :: 0 <= k < n ==> rows[k] == row
  {
    seq(n, _ => row)
  }

  lemma {:induction false} CopiesShown(ctx: Context, row: Candidate, n: nat)
    requires Accepted(ctx, row)
    ensures ShownCount(ctx, Copies(row, n), Key(ctx, row)) == n
  {
    hide Accepted, Key;
    if n > 0 {
      assert Copies(row, n)[..n - 1] == Copies(row, n - 1);
      CopiesShown(ctx, row, n - 1);
    }
  }

  lemma {:induction false} CopiesWasted(ctx: Context, row: Candidate, n: nat, most: nat)
    ensures Wasted(ctx, Copies(row, n), most) == if !Accepted(ctx, row) then n else if n <= most then 0 else n - most
  {
    hide Accepted, Key;
    if n > 0 {
      assert Copies(row, n)[..n - 1] == Copies(row, n - 1);
      CopiesWasted(ctx, row, n - 1, most);
      if Accepted(ctx, row) {
        CopiesShown(ctx, row, n - 1);
      }
      hide ShownCount;
    }
  }

  lemma {:induction false} SkippedCopies(ctx: Context, row: Candidate, n: nat, rest: seq<Candidate>, seen: set<string>, limit: nat)
    requires !Accepted(ctx, row) || Key(ctx, row) in seen
    ensures Hits(ctx, Copies(row, n) + rest, seen, limit) == Hits(ctx, rest, seen, limit)
    decreases n
  {
    hide Accepted, Key, HitOf;
    if n == 0 {
      assert Copies(row, n) + rest == rest;
    } else if limit > 0 {
      assert (Copies(row, n) + rest)[1..] == Copies(row, n - 1) + rest;
      SkippedCopies(ctx, row, n - 1, rest, seen, limit);
    } else {
      NoHits(ctx, Copies(row, n) + rest, seen, limit);
      NoHits(ctx, rest, seen, limit);
    }
  }

  lemma {:induction false} OneTier(tier: seq<Candidate>, n: nat)
    ensures FirstOfEach([tier], n) == (if |tier| <= n then tier else tier[..n]) && Ranked([tier]) == tier
  {
    var none: seq<seq<Candidate>> := [];
    assert [tier][1..] == none;
  }

  lemma {:induction false} OneRowHit(ctx: Context, row: Candidate, seen: set<string>, limit: nat)
    requires Accepted(ctx, row) && Key(ctx, row) !in seen && limit > 0
    ensures Hits(ctx, [row], seen, limit) == [HitOf(ctx, row)]
  {
    hide Accepted, Key, HitOf;
    NoHits(ctx, [row][1..], seen + {Key(ctx, row)}, limit - 1);
  }

  /** As many refused rows as `most` hide a document that may be shown. */
  lemma {:induction false} RefusedRowsHide(ctx: Context, hidden: Candidate, shown: Candidate, most: nat)
    requires !Accepted(ctx, hidden) && Accepted(ctx, shown)
    ensures var tiers := [Copies(hidden, most) + [shown]];
      && WastesLess(ctx, tiers, most, 1, most + 1)
      && Hits(ctx, FirstOfEach(tiers, 1 * most), {}, 1) == []
      && Hits(ctx, Ranked(tiers), {}, 1) == [HitOf(ctx, shown)]
  {
    hide Accepted, Key, HitOf, Wasted, Hits, FirstOfEach, Ranked;
    var refused := Copies(hidden, most);
    var tier := refused + [shown];
    CopiesWasted(ctx, hidden, most, most);
    assert tier[..1 * most] == refused && |tier| == most + 1;
    OneTier(tier, 1 * most);
    SkippedCopies(ctx, hidden, most, [shown], {}, 1);
    SkippedCopies(ctx, hidden, most, [], {}, 1);
    assert refused + [] == refused;
    NoHits(ctx, [], {}, 1);
    OneRowHit(ctx, shown, {}, 1);
  }

  /** So do `most` rows of one document beyond its own share. */
  lemma {:induction false} SurplusRowsCrowdOut(ctx: Context, a: Candidate, b: Candidate, most: nat)
    requires Accepted(ctx, a) && Accepted(ctx, b) && Key(ctx, a) != Key(ctx, b) && most > 0
    ensures var tiers := [Copies(a, 2 * most) + [b]];
      && WastesLess(ctx, tiers, most, 2, most + 1)
      && Hits(ctx, FirstOfEach(tiers, 2 * most), {}, 2) == [HitOf(ctx, a)]
      && Hits(ctx, Ranked(tiers), {}, 2) == [HitOf(ctx, a), HitOf(ctx, b)]
  {
    hide Accepted, Key, HitOf, Wasted, FirstOfEach, Ranked;
    var n := 2 * most;
    var copies := Copies(a, n);
    var tier := copies + [b];
    CopiesWasted(ctx, a, n, most);
    assert tier[..n] == copies && |tier| == n + 1;
    OneTier(tier, n);
    FirstOfCopies(ctx, a, n, [b]);
    FirstOfCopies(ctx, a, n, []);
    hide Hits;
    assert copies + [] == copies;
    NoHits(ctx, [], {Key(ctx, a)}, 1);
    OneRowHit(ctx, b, {Key(ctx, a)}, 1);
  }

  lemma {:induction false} FirstOfCopies(ctx: Context, a: Candidate, n: nat, rest: seq<Candidate>)
    requires Accepted(ctx, a) && n > 0
    ensures Hits(ctx, Copies(a, n) + rest, {}, 2) == [HitOf(ctx, a)] + Hits(ctx, rest, {Key(ctx, a)}, 1)
  {
    hide Accepted, Key, HitOf;
    var rows := Copies(a, n) + rest;
    assert rows[1..] == Copies(a, n - 1) + rest;
    assert {} + {Key(ctx, a)} == {Key(ctx, a)};
    assert Hits(ctx, rows, {}, 2) == [HitOf(ctx, a)] + Hits(ctx, rows[1..], {Key(ctx, a)}, 1);
    SkippedCopies(ctx, a, n - 1, rest, {Key(ctx, a)}, 1);
  }

  /** The exact allowance. Given a document that may be shown and a row of another kind, refused
      or of another document, pages are exact for all tiers and limits that waste less than a
      bound if and only if the bound is at most `most`. */
  lemma {:induction false} WasteAllowedExactly(ctx: Context, a: Candidate, b: Candidate, most: nat, bound: nat)
    requires Accepted(ctx, a) && (!Accepted(ctx, b) || Key(ctx, a) != Key(ctx, b))
    ensures (forall tiers, limit: nat :: WastesLess(ctx, tiers, most, limit, bound) ==> PageIsExact(ctx, tiers, most, limit))
       <==> bound <= most
  {
    hide Accepted, Key, Hits, Ranked, FirstOfEach, Wasted;
    if bound <= most {
      forall tiers, limit: nat | WastesLess(ctx, tiers, most, limit, bound)
        ensures PageIsExact(ctx, tiers, most, limit)
      {
        TopKExact(ctx, tiers, most, limit);
      }
    } else if !Accepted(ctx, b) {
      RefusedRowsHide(ctx, b, a, most);
      var tiers := [Copies(b, most) + [a]];
      assert WastesLess(ctx, tiers, most, 1, bound) && !PageIsExact(ctx, tiers, most, 1);
    } else if most > 0 {
      SurplusRowsCrowdOut(ctx, a, b, most);
      var tiers := [Copies(a, 2 * most) + [b]];
      assert WastesLess(ctx, tiers, most, 2, bound) && !PageIsExact(ctx, tiers, most, 2);
    } else {
      NothingFetched(ctx, a, bound);
      assert WastesLess(ctx, [[a]], most, 1, bound) && !PageIsExact(ctx, [[a]], most, 1);
    }
  }

  lemma NothingFetched(ctx: Context, a: Candidate, bound: nat)
    requires Accepted(ctx, a) && bound > 0
    ensures WastesLess(ctx, [[a]], 0, 1, bound) && !PageIsExact(ctx, [[a]], 0, 1)
  {
    hide Accepted, Key, HitOf;
    OneTier([a], 0);
    OneRowHit(ctx, a, {}, 1);
    NoHits(ctx, [a][..0], {}, 1);
    hide FirstOfEach, Ranked, Hits;
    assert [a][..1 * 0] == [];
  }

  // ----- which rows are wasted -----

  ghost function RefusedCount(ctx: Context, rows: seq<Candidate>): nat {
    if rows == [] then 0
    else RefusedCount(ctx, rows[..|rows| - 1]) + if Accepted(ctx, rows[|rows| - 1]) then 0 else 1
  }

  lemma {:induction false} ShownWithinCount(ctx: Context, rows: seq<Candidate>, key: string)
    ensures ShownCount(ctx, rows, key) <= CountOf(ctx, rows, key)
  {
    hide Key, Accepted;
    if rows != [] {
      var init, last := rows[..|rows| - 1], rows[|rows| - 1];
      assert rows == init + [last];
      ShownWithinCount(ctx, init, key);
      CountOfLast(ctx, init, last, key);
      hide CountOf;
    }
  }

  /** While no document has more than `most` rows, only refused rows are wasted. */
  lemma {:induction false} OnlyRefusedWasted(ctx: Context, rows: seq<Candidate>, most: nat)
    requires AtMostPerDocument(ctx, rows, most)
    ensures Wasted(ctx, rows, most) == RefusedCount(ctx, rows)
  {
    if rows != [] {
      hide Key, Accepted, CountOf;
      var init, last := rows[..|rows| - 1], rows[|rows| - 1];
      assert rows == init + [last];
      forall key
        ensures CountOf(ctx, init, key) <= most
      {
        CountOfLast(ctx, init, last, key);
        assert CountOf(ctx, rows, key) <= most;
      }
      OnlyRefusedWasted(ctx, init, most);
      CountOfLast(ctx, init, last, Key(ctx, last));
      ShownWithinCount(ctx, init, Key(ctx, last));
      hide ShownCount;
      assert CountOf(ctx, rows, Key(ctx, last)) <= most;
    }
  }

  // ----- the search itself -----

  function Clamp(limit: int): (n: nat)
    ensures 1 <= n <= MAX_RESULTS
  {
    var requested := if limit == 0 then 20 else limit;
    if requested < 1 then 1 else if requested > MAX_RESULTS then MAX_RESULTS else requested
  }

  predicate Selected(row: Candidate, clauses: seq<Clause>, extensions: seq<string>) {
    && (exists k :: 0 <= k < |clauses| && Satisfies(row, clauses[k]))
    && (extensions == [] || row.ext in extensions)
  }

  function Where(rows: seq<Candidate>, clauses: seq<Clause>, extensions: seq<string>): seq<Candidate> {
    if rows == [] then []
    else (if Selected(rows[0], clauses, extensions) then [rows[0]] else []) + Where(rows[1..], clauses, extensions)
  }

  ghost function SelectedTiers(tiers: seq<seq<Candidate>>, clauses: seq<Clause>,
                               extensions: seq<string>): (r: seq<seq<Candidate>>)
    ensures |r| == |tiers| && forall k :: 0 <= k < |tiers| ==> r[k] == Where(tiers[k], clauses, extensions)
  {
    seq(|tiers|, k requires 0 <= k < |tiers| => Where(tiers[k], clauses, extensions))
  }

  lemma {:induction false} FirstOfEachAppend(tiers: seq<seq<Candidate>>, last: seq<Candidate>, n: nat)
    ensures FirstOfEach(tiers + [last], n) == FirstOfEach(tiers, n) + if |last| <= n then last else last[..n]
  {
    if tiers == [] {
      assert tiers + [last] == [last] && [last][1..] == [];
    } else {
      assert (tiers + [last])[1..] == tiers[1..] + [last];
      FirstOfEachAppend(tiers[1..], last, n);
    }
  }

  /** `matches` holds, per tier, every row the engine matches, best first; it applies the
      clauses and cuts each tier to the candidate limit. */
  method RunSearch(ctx: Context, scopes: seq<Scope>, matches: seq<seq<Candidate>>, extensions: seq<string>, limit0: int,
                   maxTextChars: nat)
    returns (result: Result<seq<Hit>, string>, ghost clauses: seq<Clause>)
    requires maxTextChars > 0
    ensures result.Success? ==>
      && |clauses| == |scopes| && scopes != [] && ctx.allowed != map[]
      && (forall k :: 0 <= k < |scopes| ==> ClauseOf(ctx, scopes[k]) == Success(clauses[k]))
      && result.value == Hits(ctx, FirstOfEach(SelectedTiers(matches, clauses, extensions),
                                               Clamp(limit0) * MaxChunksPerFile(maxTextChars)), {}, Clamp(limit0))
      && (WastesLess(ctx, SelectedTiers(matches, clauses, extensions), MaxChunksPerFile(maxTextChars), Clamp(limit0),
                     MaxChunksPerFile(maxTextChars)) ==>
            result.value == Hits(ctx, Ranked(SelectedTiers(matches, clauses, extensions)), {}, Clamp(limit0)))
    ensures result.Failure? <==>
      ctx.allowed == map[] || scopes == [] || exists k :: 0 <= k < |scopes| && ClauseOf(ctx, scopes[k]).Failure?
  {
    hide Where, Hits, WastesLess, ClauseOf, Ranked;
    clauses := [];
    if ctx.allowed == map[] || scopes == [] {
      return Failure("at least one assigned search scope is required"), [];
    }
    var limit := Clamp(limit0);
    var built := BuildClauses(ctx, scopes);
    if built.Failure? {
      return Failure(built.error), [];
    }
    clauses := built.value;
    var candidateLimit := limit * MaxChunksPerFile(maxTextChars);
    var rankedRows: seq<Candidate> := [];
    ghost var selected := SelectedTiers(matches, clauses, extensions);
    for tier := 0 to |matches|
      invariant rankedRows == FirstOfEach(selected[..tier], candidateLimit)
    {
      var rows := Where(matches[tier], built.value, extensions);
      FirstOfEachAppend(selected[..tier], rows, candidateLimit);
      assert selected[..tier + 1] == selected[..tier] + [rows];
      rankedRows := rankedRows + if |rows| <= candidateLimit then rows else rows[..candidateLimit];
    }
    assert selected[..|matches|] == selected;
    var hits := CollectHits(ctx, rankedRows, limit);
    if WastesLess(ctx, selected, MaxChunksPerFile(maxTextChars), limit, MaxChunksPerFile(maxTextChars)) {
      TopKExact(ctx, selected, MaxChunksPerFile(maxTextChars), limit);
    }
    result := Success(hits);
  }

  lemma {:induction false} HitsComeFrom(ctx: Context, rows: seq<Candidate>, seen: set<string>, limit: nat,
                                        k: nat) returns (row: Candidate)
    requires k < |Hits(ctx, rows, seen, limit)|
    ensures row in rows && Accepted(ctx, row) && Hits(ctx, rows, seen, limit)[k] == HitOf(ctx, row) && Key(ctx, row) !in seen
    decreases |rows|
  {
    hide Accepted, Key, HitOf;
    if !Accepted(ctx, rows[0]) || Key(ctx, rows[0]) in seen {
      row := HitsComeFrom(ctx, rows[1..], seen, limit, k);
    } else if k == 0 {
      row := rows[0];
    } else {
      row := HitsComeFrom(ctx, rows[1..], seen + {Key(ctx, rows[0])}, limit - 1, k - 1);
    }
  }

  /** No document is shown twice, however its path is cased. */
  lemma {:induction false} HitsDistinct(ctx: Context, rows: seq<Candidate>, seen: set<string>, limit: nat, j: nat, k: nat)
    requires j < k < |Hits(ctx, rows, seen, limit)|
    ensures Fold(ctx.fold, Hits(ctx, rows, seen, limit)[j].path) != Fold(ctx.fold, Hits(ctx, rows, seen, limit)[k].path)
    decreases |rows|
  {
    hide Accepted;
    if !Accepted(ctx, rows[0]) || Key(ctx, rows[0]) in seen {
      HitsDistinct(ctx, rows[1..], seen, limit, j, k);
    } else {
      var seen' := seen + {Key(ctx, rows[0])};
      if j == 0 {
        var row := HitsComeFrom(ctx, rows[1..], seen', limit - 1, k - 1);
      } else {
        HitsDistinct(ctx, rows[1..], seen', limit - 1, j - 1, k - 1);
      }
    }
  }

  lemma {:induction false} WhereSelects(rows: seq<Candidate>, clauses: seq<Clause>, extensions: seq<string>, row: Candidate)
    requires row in Where(rows, clauses, extensions)
    ensures row in rows && Selected(row, clauses, extensions)
  {
    hide Selected;
    if row in Where(rows[1..], clauses, extensions) {
      WhereSelects(rows[1..], clauses, extensions, row);
    }
  }

  lemma {:induction false} FirstOfEachFrom(tiers: seq<seq<Candidate>>, n: nat, row: Candidate) returns (tier: nat)
    requires row in FirstOfEach(tiers, n)
    ensures tier < |tiers| && row in tiers[tier]
  {
    if row in tiers[0] {
      tier := 0;
    } else {
      var t := FirstOfEachFrom(tiers[1..], n, row);
      tier := t + 1;
    }
  }

  /** Every hit lies under the root of an assigned share, inside a requested scope, carries no
      "." or ".." component, and, when the search is authorized, is readable by the caller. */
  lemma HitsStayInScope(ctx: Context, scopes: seq<Scope>, clauses: seq<Clause>, matches: seq<seq<Candidate>>,
                        extensions: seq<string>, n: nat, limit: nat, k: nat) returns (row: Candidate, scope: Scope)
    requires |clauses| == |scopes| && forall j :: 0 <= j < |scopes| ==> ClauseOf(ctx, scopes[j]) == Success(clauses[j])
    requires k < |Hits(ctx, FirstOfEach(SelectedTiers(matches, clauses, extensions), n), {}, limit)|
    ensures scope in scopes && InScope(ctx, row, scope)
    ensures extensions != [] ==> row.ext in extensions
    ensures ctx.principals.Some? ==> AuthorizeAcl(row.acl, ctx.principals.value, ctx.maxAgeSeconds, ctx.now).allowed
    ensures var hit := Hits(ctx, FirstOfEach(SelectedTiers(matches, clauses, extensions), n), {}, limit)[k];
      && hit.path == row.path && hit.shareId == row.shareId && hit.shareId in ctx.allowed
      && Fold(ctx.fold, NormalizedRoot(ctx.allowed[hit.shareId]) + "\\") <= Fold(ctx.fold, NormalizedPath(hit.path))
      && Components(hit.relativePath, '\\') != [] && !HasDots(Components(hit.relativePath, '\\'))
  {
    hide Hits, FirstOfEach, Where, RelativeUnderRoot, ClauseOf, InScope, Satisfies, Fold, NormalizedPath, Components;
    var tiers := SelectedTiers(matches, clauses, extensions);
    row := HitsComeFrom(ctx, FirstOfEach(tiers, n), {}, limit, k);
    var tier := FirstOfEachFrom(tiers, n, row);
    WhereSelects(matches[tier], clauses, extensions, row);
    var j :| 0 <= j < |clauses| && Satisfies(row, clauses[j]);
    scope := scopes[j];
    ClauseMeansScope(ctx, scope, row);
    RelativeIsContained(ctx.fold, ctx.allowed[row.shareId], row.path);
  }
}
