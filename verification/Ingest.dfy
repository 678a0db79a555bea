/** Bulk ingestion of opinions: chunking by tokens, and a loop that commits whole opinions in
    batches and skips what an earlier run has committed. */
module Ingest {
  import opened Wrappers
  import opened SlidingWindows
  import Text

  const CHUNK_TOKENS: nat := 500
  const CHUNK_OVERLAP_TOKENS: nat := 50

  /** The tokeniser, as two functions nothing more is known about. */
  datatype Tokenizer = Tokenizer(encode: string -> seq<int>, decode: seq<int> -> string)

  // ----- chunk_text -----

  /** The token position at which iteration k of the chunking loop starts. */
  function LoopStart(k: nat, maxTokens: nat, overlap: nat): int {
    if k == 0 then 0 else LoopStart(k - 1, maxTokens, overlap) + maxTokens - overlap
  }

  /** Iteration k reaches the end of n tokens and leaves the loop. */
  predicate LeavesAt(k: nat, n: nat, maxTokens: nat, overlap: nat) {
    LoopStart(k, maxTokens, overlap) + maxTokens >= n
  }

  lemma {:induction false} LoopStartAt(k: nat, maxTokens: nat, overlap: nat)
    ensures overlap < maxTokens ==> LoopStart(k, maxTokens, overlap) >= k
    ensures overlap >= maxTokens ==> LoopStart(k, maxTokens, overlap) <= 0
  {
    if k > 0 {
      LoopStartAt(k - 1, maxTokens, overlap);
    }
  }

  /** The chunking loop ends exactly when it moves forward or everything fits in one chunk. */
  lemma ChunkingEnds(n: nat, maxTokens: nat, overlap: nat)
    ensures (exists k :: LeavesAt(k, n, maxTokens, overlap)) <==> overlap < maxTokens || n <= maxTokens
  {
    LoopStartAt(n, maxTokens, overlap);
    if overlap < maxTokens {
      assert LeavesAt(n, n, maxTokens, overlap);
    } else if n <= maxTokens {
      assert LeavesAt(0, n, maxTokens, overlap);
    } else {
      forall k
        ensures !LeavesAt(k, n, maxTokens, overlap)
      {
        LoopStartAt(k, maxTokens, overlap);
      }
    }
  }

  /** The chunks cut from one position on. */
  function ChunksFrom(tokens: seq<int>, start: nat, maxTokens: nat, overlap: nat, decode: seq<int> -> string): seq<string>
    requires start <= |tokens| && (overlap < maxTokens || |tokens| <= start + maxTokens)
    decreases |tokens| - start
  {
    var end := if start + maxTokens <= |tokens| then start + maxTokens else |tokens|;
    var chunk := Text.Trim(decode(tokens[start..end]));
    (if chunk == "" then [] else [chunk])
    + if end == |tokens| then [] else ChunksFrom(tokens, end - overlap, maxTokens, overlap, decode)
  }

  /** A call that returns: it moves forward, or has nothing to cut, or cuts everything at once. */
  predicate Returns(text: string, tk: Tokenizer, maxTokens: nat, overlap: nat) {
    overlap < maxTokens || Text.Trim(text) == "" || |tk.encode(text)| <= maxTokens
  }

  function Chunks(text: string, tk: Tokenizer, maxTokens: nat, overlap: nat): seq<string>
    requires Returns(text, tk, maxTokens, overlap)
  {
    var tokens := tk.encode(text);
    if Text.Trim(text) == "" || tokens == [] then [] else ChunksFrom(tokens, 0, maxTokens, overlap, tk.decode)
  }

  method ChunkText(text: string, tk: Tokenizer, maxTokens: nat, overlap: nat) returns (chunks: seq<string>)
    requires Returns(text, tk, maxTokens, overlap)
    ensures chunks == Chunks(text, tk, maxTokens, overlap)
  {
    hide Text.Trim, ChunksFrom;
    chunks := [];
    if text == "" || Text.Trim(text) == "" {
      NothingToTrim();
      return;
    }
    var tokens := tk.encode(text);
    if |tokens| == 0 {
      return;
    }
    var start := 0;
    while start < |tokens|
      invariant start < |tokens| && (overlap < maxTokens || |tokens| <= start + maxTokens)
      invariant ChunksFrom(tokens, 0, maxTokens, overlap, tk.decode)
             == chunks + ChunksFrom(tokens, start, maxTokens, overlap, tk.decode)
      decreases |tokens| - start
    {
      ChunkStep(chunks, tokens, start, maxTokens, overlap, tk.decode);
      var end := if start + maxTokens <= |tokens| then start + maxTokens else |tokens|;
      var chunk := Text.Trim(tk.decode(tokens[start..end]));
      if chunk != "" {
        chunks := chunks + [chunk];
      }
      if end == |tokens| {
        break;
      }
      start := end - overlap;
    }
  }

  lemma ChunkStep(done: seq<string>, tokens: seq<int>, start: nat, maxTokens: nat, overlap: nat, decode: seq<int> -> string)
    requires start <= |tokens| && (overlap < maxTokens || |tokens| <= start + maxTokens)
    ensures var end := if start + maxTokens <= |tokens| then start + maxTokens else |tokens|;
      var chunk := Text.Trim(decode(tokens[start..end]));
      done + ChunksFrom(tokens, start, maxTokens, overlap, decode)
      == (if chunk == "" then done else done + [chunk])
         + if end == |tokens| then [] else ChunksFrom(tokens, end - overlap, maxTokens, overlap, decode)
  {
    hide Text.Trim;
  }

  lemma NothingToTrim()
    ensures Text.Trim("") == ""
  {}

  predicate StoredUnlessBlank(piece: string, chunks: seq<string>) {
    Text.Trim(piece) == "" || Text.Trim(piece) in chunks
  }

  lemma StoredInMore(piece: string, first: string, rest: seq<string>)
    requires StoredUnlessBlank(piece, rest)
    ensures StoredUnlessBlank(piece, (if first == "" then [] else [first]) + rest)
  {
    hide Text.Trim;
  }

  lemma FirstChunk(tokens: seq<int>, start: nat, maxTokens: nat, overlap: nat, decode: seq<int> -> string)
    requires start <= |tokens| && (overlap < maxTokens || |tokens| <= start + maxTokens)
    ensures var end := if start + maxTokens <= |tokens| then start + maxTokens else |tokens|;
      var chunk := Text.Trim(decode(tokens[start..end]));
      && StoredUnlessBlank(decode(tokens[start..end]), ChunksFrom(tokens, start, maxTokens, overlap, decode))
      && ChunksFrom(tokens, start, maxTokens, overlap, decode)
         == (if chunk == "" then [] else [chunk])
            + if end == |tokens| then [] else ChunksFrom(tokens, end - overlap, maxTokens, overlap, decode)
  {
    hide Text.Trim;
  }

  /** The loop cuts the sliding windows of the tokens, and stores each. */
  lemma {:induction false} WindowIsStored(tokens: seq<int>, start: nat, maxTokens: nat, overlap: nat,
                                          decode: seq<int> -> string,
                                          w: Span)
    requires start <= |tokens| && overlap < maxTokens
    requires w in WindowsFrom(start, |tokens|, maxTokens, overlap)
    ensures w.lo <= w.hi <= |tokens| && w.hi <= w.lo + maxTokens
    ensures StoredUnlessBlank(decode(tokens[w.lo..w.hi]), ChunksFrom(tokens, start, maxTokens, overlap, decode))
    decreases |tokens| - start
  {
    hide Text.Trim;
    hide ChunksFrom;
    var end := if start + maxTokens <= |tokens| then start + maxTokens else |tokens|;
    var chunk := Text.Trim(decode(tokens[start..end]));
    if w == Span(start, end) {
      FirstChunk(tokens, start, maxTokens, overlap, decode);
    } else {
      var rest := ChunksFrom(tokens, end - overlap, maxTokens, overlap, decode);
      WindowIsStored(tokens, end - overlap, maxTokens, overlap, decode, w);
      hide *;
      FirstChunk(tokens, start, maxTokens, overlap, decode);
      StoredInMore(decode(tokens[w.lo..w.hi]), chunk, rest);
    }
  }

  /** A stretch of at most overlap + 1 tokens is never cut: the chunk of some window that holds
      all of it is stored, unless that window decodes to blanks. */
  lemma TokensKeptTogether(text: string, tk: Tokenizer, maxTokens: nat, overlap: nat, i: nat, j: nat)
    requires overlap < maxTokens && Text.Trim(text) != ""
    requires i <= j <= |tk.encode(text)| && j - i <= overlap + 1 && tk.encode(text) != []
    ensures exists lo: nat, hi: nat :: lo <= i && j <= hi <= |tk.encode(text)| && hi - lo <= maxTokens &&
              StoredUnlessBlank(tk.decode(tk.encode(text)[lo..hi]), Chunks(text, tk, maxTokens, overlap))
  {
    var tokens := tk.encode(text);
    var windows := WindowsFrom(0, |tokens|, maxTokens, overlap);
    ShortRangeCovered(0, |tokens|, maxTokens, overlap, i, j);
    hide WindowsFrom, Text.Trim, ChunksFrom;
    var k :| 0 <= k < |windows| && windows[k].lo <= i && j <= windows[k].hi;
    WindowIsStored(tokens, 0, maxTokens, overlap, tk.decode, windows[k]);
  }

  // ----- the table -----

  /** What extraction keeps of an input line. The caption stands for the columns that are only
      copied: case name, citation, court and decision date. */
  datatype Opinion = Opinion(id: string, caption: seq<string>, plainText: string)

  datatype Row = Row(opinionId: string, caption: seq<string>, chunkIndex: nat, content: string)

  /** One row per chunk, numbered from zero. */
  ghost function Complete(o: Opinion, tk: Tokenizer): (rows: seq<Row>)
    ensures forall r :: r in rows ==> r.opinionId == o.id
  {
    var chunks := Chunks(o.plainText, tk, CHUNK_TOKENS, CHUNK_OVERLAP_TOKENS);
    seq(|chunks|, i requires 0 <= i < |chunks| => Row(o.id, o.caption, i, chunks[i]))
  }

  function OfOpinion(rows: seq<Row>, id: string): seq<Row> {
    if rows == [] then []
    else (if rows[0].opinionId == id then [rows[0]] else []) + OfOpinion(rows[1..], id)
  }

  predicate AlreadyIngested(rows: seq<Row>, id: string) {
    exists r :: r in rows && r.opinionId == id
  }

  // ----- one pass over the input -----

  /** Committed rows, and rows not yet sent. */
  datatype Progress = Progress(committed: seq<Row>, pending: seq<Row>)

  ghost function OneOpinion(p: Progress, line: Option<Opinion>, batchSize: int, tk: Tokenizer): Progress {
    if line.None? || AlreadyIngested(p.committed, line.value.id) || Complete(line.value, tk) == [] then p
    else
      var pending := p.pending + Complete(line.value, tk);
      if |pending| >= batchSize then Progress(p.committed + pending, []) else p.(pending := pending)
  }

  ghost function AfterOpinions(committed: seq<Row>, lines: seq<Option<Opinion>>, batchSize: int, tk: Tokenizer): Progress {
    if lines == [] then Progress(committed, [])
    else OneOpinion(AfterOpinions(committed, lines[..|lines| - 1], batchSize, tk), lines[|lines| - 1], batchSize, tk)
  }

  /** The opinions a run reads; a limit of zero means none was given. */
  function Taken(lines: seq<Option<Opinion>>, limit: int): seq<Option<Opinion>> {
    if limit == 0 || lines == [] then lines
    else if limit < 1 then lines[..1]
    else if limit <= |lines| then lines[..limit]
    else lines
  }

  /** What a run may leave in the table: everything it read when it finished; otherwise what was
      committed by the time it died, wherever that was. */
  ghost predicate RunLeaves(before: seq<Row>, lines: seq<Option<Opinion>>, batchSize: int, tk: Tokenizer, finished: bool,
                            now: seq<Row>) {
    var end := AfterOpinions(before, lines, batchSize, tk);
    || now == end.committed + end.pending
    || (!finished && exists k :: 0 <= k <= |lines| && now == AfterOpinions(before, lines[..k], batchSize, tk).committed)
  }

  class Database {
    var publicChunks: seq<Row>

    /** One transaction. The error of a failed commit does not tell whether the rows are in. */
    method BulkInsertChunks(rows: seq<Row>) returns (ok: bool)
      modifies this
      ensures publicChunks == old(publicChunks) || publicChunks == old(publicChunks) + rows
      ensures ok ==> publicChunks == old(publicChunks) + rows
    {
      ok := true;
      if rows == [] {
        return;
      }
      var fault: bool := *;
      if fault {
        ok := false;
        var landed: bool := *;
        if !landed {
          return;
        }
      }
      publicChunks := publicChunks + rows;
    }

    constructor ()
      ensures publicChunks == []
    {
      publicChunks := [];
    }
  }

  datatype Totals = Totals(opinions: nat, skipped: nat, ingested: nat, chunks: nat)

  lemma {:induction false} NextLine(committed: seq<Row>, lines: seq<Option<Opinion>>, k: nat, batchSize: int, tk: Tokenizer)
    requires k < |lines|
    ensures AfterOpinions(committed, lines[..k + 1], batchSize, tk)
         == OneOpinion(AfterOpinions(committed, lines[..k], batchSize, tk), lines[k], batchSize, tk)
  {
    assert lines[..k + 1][..k] == lines[..k];
  }

  /** The main loop. Any call may fail, which ends the run; pending rows are then lost. */
  method Run(db: Database, lines: seq<Option<Opinion>>, limit: int, batchSize: int, tk: Tokenizer)
    returns (finished: bool, totals: Totals)
    modifies db
    ensures RunLeaves(old(db.publicChunks), Taken(lines, limit), batchSize, tk, finished, db.publicChunks)
    ensures finished ==> |db.publicChunks| == |old(db.publicChunks)| + totals.chunks
    ensures finished ==> totals.opinions == |Taken(lines, limit)| == totals.skipped + totals.ingested
  {
    hide Complete, AfterOpinions;
    var input := Taken(lines, limit);
    ghost var before := db.publicChunks;
    var pending: seq<Row> := [];
    totals := Totals(0, 0, 0, 0);
    finished := false;
    assert AfterOpinions(before, input[..0], batchSize, tk) == Progress(before, []) by {
      NoLines(before, batchSize, tk);
    }
    for k := 0 to |input|
      invariant AfterOpinions(before, input[..k], batchSize, tk) == Progress(db.publicChunks, pending)
      invariant totals.opinions == k == totals.skipped + totals.ingested
      invariant |db.publicChunks| + |pending| == |before| + totals.chunks
      invariant !finished
    {
      NextLine(before, input, k, batchSize, tk);
      var crash: bool := *;
      if crash {
        return;
      }
      totals := totals.(opinions := totals.opinions + 1);
      var line := input[k];
      if line.None? || AlreadyIngested(db.publicChunks, line.value.id) {
        totals := totals.(skipped := totals.skipped + 1);
        continue;
      }
      var opinion := line.value;
      var chunks := ChunkText(opinion.plainText, tk, CHUNK_TOKENS, CHUNK_OVERLAP_TOKENS);
      CompleteAre(opinion, tk, chunks);
      if chunks == [] {
        totals := totals.(skipped := totals.skipped + 1);
        continue;
      }
      ghost var waiting := pending;
      for index := 0 to |chunks|
        invariant |pending| == |waiting| + index
        invariant pending == waiting + Complete(opinion, tk)[..index]
        invariant totals.chunks == |db.publicChunks| - |before| + |pending|
        invariant totals.opinions == k + 1 && k == totals.skipped + totals.ingested
      {
        pending := pending + [Row(opinion.id, opinion.caption, index, chunks[index])];
        totals := totals.(chunks := totals.chunks + 1);
      }
      assert pending == waiting + Complete(opinion, tk);
      totals := totals.(ingested := totals.ingested + 1);
      if |pending| >= batchSize {
        var ok := db.BulkInsertChunks(pending);
        if !ok {
          assert input[..k + 1] == input[..k + 1][..k + 1];
          return;
        }
        pending := [];
      }
    }
    assert input[..|input|] == input;
    finished := db.BulkInsertChunks(pending);
  }

  lemma {:induction false} NoLines(before: seq<Row>, batchSize: int, tk: Tokenizer)
    ensures AfterOpinions(before, [], batchSize, tk) == Progress(before, [])
  {}

  lemma CompleteAre(o: Opinion, tk: Tokenizer, chunks: seq<string>)
    requires chunks == Chunks(o.plainText, tk, CHUNK_TOKENS, CHUNK_OVERLAP_TOKENS)
    ensures |Complete(o, tk)| == |chunks|
    ensures forall i :: 0 <= i < |chunks| ==> Complete(o, tk)[i] == Row(o.id, o.caption, i, chunks[i])
  {}

  // ----- all or nothing -----

  /** Every opinion is in the table with all its chunks, in order, or not at all. The texts are
      what the opinions look like in every input file. */
  ghost predicate AllOrNothing(rows: seq<Row>, texts: string -> Opinion, tk: Tokenizer) {
    forall id :: OfOpinion(rows, id) == [] || OfOpinion(rows, id) == Complete(texts(id), tk)
  }

  ghost predicate Agrees(lines: seq<Option<Opinion>>, texts: string -> Opinion) {
    forall k :: 0 <= k < |lines| && lines[k].Some? ==> texts(lines[k].value.id) == lines[k].value
  }

  ghost predicate DistinctIds(lines: seq<Option<Opinion>>) {
    forall j, k :: 0 <= j < k < |lines| && lines[j].Some? && lines[k].Some? ==> lines[j].value.id != lines[k].value.id
  }

  ghost predicate Mentions(lines: seq<Option<Opinion>>, id: string) {
    exists k :: 0 <= k < |lines| && lines[k].Some? && lines[k].value.id == id
  }

  lemma {:induction false} OfOpinionAppend(a: seq<Row>, b: seq<Row>, id: string)
    ensures OfOpinion(a + b, id) == OfOpinion(a, id) + OfOpinion(b, id)
  {
    hide OfOpinion;
    if a == [] {
      assert a + b == b;
      NothingPending();
    } else {
      OfOpinionAppend(a[1..], b, id);
      OfOpinionStep(a[0], a[1..], id);
      OfOpinionStep(a[0], a[1..] + b, id);
      assert a == [a[0]] + a[1..] && a + b == [a[0]] + (a[1..] + b);
    }
  }

  lemma {:induction false} OfOpinionStep(head: Row, tail: seq<Row>, id: string)
    ensures OfOpinion([head] + tail, id) == (if head.opinionId == id then [head] else []) + OfOpinion(tail, id)
  {
    assert ([head] + tail)[1..] == tail;
  }

  lemma {:induction false} OfOneOpinion(rows: seq<Row>, id: string, other: string)
    requires forall r :: r in rows ==> r.opinionId == id
    ensures OfOpinion(rows, other) == if other == id then rows else []
  {
    if rows != [] {
      OfOneOpinion(rows[1..], id, other);
    }
  }

  lemma {:induction false} IngestedMeans(rows: seq<Row>, id: string)
    ensures AlreadyIngested(rows, id) <==> OfOpinion(rows, id) != []
  {
    if rows != [] {
      IngestedMeans(rows[1..], id);
      assert rows == [rows[0]] + rows[1..];
      assert AlreadyIngested(rows, id) <==> rows[0].opinionId == id || AlreadyIngested(rows[1..], id);
    }
  }

  /** What holds after each opinion: the committed rows, and the committed and pending rows
      together, are all or nothing; only opinions already read are pending; and nothing read is
      missing from the two together. */
  ghost predicate Sound(p: Progress, lines: seq<Option<Opinion>>, texts: string -> Opinion, tk: Tokenizer) {
    && AllOrNothing(p.committed, texts, tk)
    && (forall id :: OfOpinion(p.pending, id) == []
                     || (OfOpinion(p.committed, id) == [] && Mentions(lines, id)
                         && OfOpinion(p.pending, id) == Complete(texts(id), tk)))
    && (forall k :: 0 <= k < |lines| && lines[k].Some? ==> Held(p, lines[k].value, tk))
  }

  ghost predicate Held(p: Progress, o: Opinion, tk: Tokenizer) {
    OfOpinion(p.committed, o.id) + OfOpinion(p.pending, o.id) == Complete(o, tk)
  }

  lemma FlushIsSound(p: Progress, lines: seq<Option<Opinion>>, texts: string -> Opinion, tk: Tokenizer)
    requires Sound(p, lines, texts, tk)
    ensures Sound(Progress(p.committed + p.pending, []), lines, texts, tk)
  {
    hide Complete, OfOpinion, Mentions;
    var flushed := p.committed + p.pending;
    NothingPending();
    forall id
      ensures OfOpinion(flushed, id) == OfOpinion(p.committed, id) + OfOpinion(p.pending, id)
    {
      OfOpinionAppend(p.committed, p.pending, id);
    }
    forall k | 0 <= k < |lines| && lines[k].Some?
      ensures Held(Progress(flushed, []), lines[k].value, tk)
    {
      var o := lines[k].value;
      assert Held(p, o, tk);
      assert OfOpinion([], o.id) == [];
    }
  }

  lemma NothingPending()
    ensures forall id :: OfOpinion([], id) == []
  {}

  lemma AppendIsSound(p: Progress, lines: seq<Option<Opinion>>, o: Opinion, texts: string -> Opinion, tk: Tokenizer)
    requires Sound(p, lines, texts, tk) && texts(o.id) == o && !Mentions(lines, o.id)
    requires OfOpinion(p.committed, o.id) == []
    ensures Sound(p.(pending := p.pending + Complete(o, tk)), lines + [Some(o)], texts, tk)
  {
    hide Complete, OfOpinion;
    var added := p.(pending := p.pending + Complete(o, tk));
    CompleteOfOne(o, tk);
    forall id
      ensures OfOpinion(added.pending, id) == OfOpinion(p.pending, id) + if id == o.id then Complete(o, tk) else []
    {
      OfOpinionAppend(p.pending, Complete(o, tk), id);
      OfOneOpinion(Complete(o, tk), o.id, id);
    }
    forall id
      ensures Mentions(lines, id) ==> Mentions(lines + [Some(o)], id)
    {
      MentionsMore(lines, Some(o), id);
    }
    assert (lines + [Some(o)])[|lines|] == Some(o);
    assert Mentions(lines + [Some(o)], o.id);
    hide Mentions;
    forall k | 0 <= k < |lines + [Some(o)]| && (lines + [Some(o)])[k].Some?
      ensures Held(added, (lines + [Some(o)])[k].value, tk)
    {
      if k < |lines| {
        assert Held(p, lines[k].value, tk);
        assert lines[k].value.id != o.id by {
          MentionedAt(lines, k);
        }
      }
    }
  }

  lemma CompleteOfOne(o: Opinion, tk: Tokenizer)
    ensures forall r :: r in Complete(o, tk) ==> r.opinionId == o.id
  {}

  lemma MentionedAt(lines: seq<Option<Opinion>>, k: nat)
    requires k < |lines| && lines[k].Some?
    ensures Mentions(lines, lines[k].value.id)
  {}

  lemma MentionsMore(lines: seq<Option<Opinion>>, line: Option<Opinion>, id: string)
    ensures Mentions(lines, id) ==> Mentions(lines + [line], id)
  {
    if k :| 0 <= k < |lines| && lines[k].Some? && lines[k].value.id == id {
      assert (lines + [line])[k] == lines[k];
    }
  }

  lemma SkipIsSound(p: Progress, lines: seq<Option<Opinion>>, line: Option<Opinion>, texts: string -> Opinion, tk: Tokenizer)
    requires Sound(p, lines, texts, tk)
    requires line.Some? ==> Held(p, line.value, tk)
    ensures Sound(p, lines + [line], texts, tk)
  {
    hide Complete, OfOpinion, Held;
    forall id
      ensures Mentions(lines, id) ==> Mentions(lines + [line], id)
    {
      MentionsMore(lines, line, id);
    }
    hide Mentions;
  }

  lemma OneIsSound(p: Progress, lines: seq<Option<Opinion>>, line: Option<Opinion>, batchSize: int, texts: string -> Opinion,
                   tk: Tokenizer)
    requires Sound(p, lines, texts, tk)
    requires line.Some? ==> texts(line.value.id) == line.value && !Mentions(lines, line.value.id)
    ensures Sound(OneOpinion(p, line, batchSize, tk), lines + [line], texts, tk)
  {
    hide Complete, OfOpinion, Mentions;
    if line.Some? {
      var o := line.value;
      IngestedMeans(p.committed, o.id);
      hide AlreadyIngested;
      if OfOpinion(p.committed, o.id) != [] || Complete(o, tk) == [] {
        assert OfOpinion(p.pending, o.id) == [];
        SkipIsSound(p, lines, line, texts, tk);
      } else {
        AppendIsSound(p, lines, o, texts, tk);
        FlushIsSound(p.(pending := p.pending + Complete(o, tk)), lines + [line], texts, tk);
      }
    } else {
      SkipIsSound(p, lines, line, texts, tk);
    }
  }

  lemma {:induction false} PassIsSound(committed: seq<Row>, lines: seq<Option<Opinion>>, batchSize: int,
                                       texts: string -> Opinion,
                                       tk: Tokenizer)
    requires AllOrNothing(committed, texts, tk) && Agrees(lines, texts) && DistinctIds(lines)
    ensures Sound(AfterOpinions(committed, lines, batchSize, tk), lines, texts, tk)
  {
    hide Complete, OfOpinion, OneOpinion;
    NothingPending();
    if lines != [] {
      var init, last := lines[..|lines| - 1], lines[|lines| - 1];
      assert lines == init + [last];
      PassIsSound(committed, init, batchSize, texts, tk);
      OneIsSound(AfterOpinions(committed, init, batchSize, tk), init, last, batchSize, texts, tk);
    }
  }

  /** One run, finished or cut short anywhere, keeps all or nothing; and a run that finishes has
      every opinion it read complete. */
  lemma {:induction false} RunKeepsAllOrNothing(before: seq<Row>, lines: seq<Option<Opinion>>, batchSize: int,
                                                texts: string -> Opinion, tk: Tokenizer, finished: bool, now: seq<Row>)
    requires AllOrNothing(before, texts, tk) && Agrees(lines, texts) && DistinctIds(lines)
    requires RunLeaves(before, lines, batchSize, tk, finished, now)
    ensures AllOrNothing(now, texts, tk)
    ensures finished ==> forall k :: 0 <= k < |lines| && lines[k].Some? ==>
      OfOpinion(now, lines[k].value.id) == Complete(lines[k].value, tk)
  {
    hide Complete, OfOpinion, AfterOpinions;
    var end := AfterOpinions(before, lines, batchSize, tk);
    PassIsSound(before, lines, batchSize, texts, tk);
    FlushIsSound(end, lines, texts, tk);
    NothingPending();
    if now == end.committed + end.pending {
      forall k | 0 <= k < |lines| && lines[k].Some?
        ensures OfOpinion(now, lines[k].value.id) == Complete(lines[k].value, tk)
      {
        assert Held(Progress(now, []), lines[k].value, tk);
      }
    } else {
      var k :| 0 <= k <= |lines| && now == AfterOpinions(before, lines[..k], batchSize, tk).committed;
      PassIsSound(before, lines[..k], batchSize, texts, tk);
    }
  }

  // ----- over restarts -----

  datatype Attempt = Attempt(lines: seq<Option<Opinion>>, limit: int, batchSize: int, finished: bool)

  /** The table after each of a number of runs, started one after the other. */
  ghost predicate History(tables: seq<seq<Row>>, attempts: seq<Attempt>, tk: Tokenizer) {
    && |tables| == |attempts| + 1
    && forall k :: 0 <= k < |attempts| ==>
         var a := attempts[k];
         RunLeaves(tables[k], Taken(a.lines, a.limit), a.batchSize, tk, a.finished, tables[k + 1])
  }

  /** All-or-nothing ingestion over any sequence of crashes, limits, batch sizes and reruns. */
  lemma {:induction false} RestartsKeepAllOrNothing(tables: seq<seq<Row>>, attempts: seq<Attempt>, texts: string -> Opinion,
                                                    tk: Tokenizer)
    requires History(tables, attempts, tk) && AllOrNothing(tables[0], texts, tk)
    requires forall a :: a in attempts ==> Agrees(a.lines, texts) && DistinctIds(a.lines)
    ensures AllOrNothing(tables[|attempts|], texts, tk)
    ensures attempts != [] && attempts[|attempts| - 1].finished ==>
      var a := attempts[|attempts| - 1];
      forall k :: 0 <= k < |Taken(a.lines, a.limit)| && Taken(a.lines, a.limit)[k].Some? ==>
        var o := Taken(a.lines, a.limit)[k].value;
        OfOpinion(tables[|attempts|], o.id) == Complete(o, tk)
  {
    if attempts != [] {
      var n := |attempts| - 1;
      var a := attempts[n];
      hide RunLeaves, AllOrNothing, OfOpinion, Complete;
      assert forall b :: b in attempts[..n] ==> b in attempts;
      RestartsKeepAllOrNothing(tables[..n + 1], attempts[..n], texts, tk);
      RunKeepsAllOrNothing(tables[n], Taken(a.lines, a.limit), a.batchSize, texts, tk, a.finished, tables[n + 1]);
    }
  }

  // ----- where distinct ids are needed -----

  /** An opinion listed twice is kept whole exactly when its first copy has been sent before the
      second is read, because only committed rows are looked up and the table has no key to
      reject the second copy. */
  lemma {:induction false} RepeatedOpinion(o: Opinion, batchSize: int, texts: string -> Opinion, tk: Tokenizer)
    requires texts(o.id) == o && Complete(o, tk) != []
    ensures var end := AfterOpinions([], [Some(o), Some(o)], batchSize, tk);
      AllOrNothing(end.committed + end.pending, texts, tk) <==> batchSize <= |Complete(o, tk)|
  {
    var rows := Complete(o, tk);
    var lines := [Some(o), Some(o)];
    var first := OneOpinion(Progress([], []), Some(o), batchSize, tk);
    assert lines[..1] == [Some(o)] && [Some(o)][..0] == [];
    CompleteOfOne(o, tk);
    hide Complete;
    assert [] + rows == rows;
    assert first == if |rows| >= batchSize then Progress(rows, []) else Progress([], rows);
    assert AfterOpinions([], [Some(o)], batchSize, tk) == first;
    var end := AfterOpinions([], lines, batchSize, tk);
    assert end == OneOpinion(first, Some(o), batchSize, tk);
    assert rows[0] in rows;
    forall id
      ensures OfOpinion(rows, id) == (if id == o.id then rows else [])
      ensures OfOpinion(rows + rows, id) == if id == o.id then rows + rows else []
    {
      OfOneOpinion(rows, o.id, id);
      OfOneOpinion(rows + rows, o.id, id);
    }
    hide OfOpinion;
    if batchSize > |rows| {
      assert end.committed + end.pending == rows + rows;
      assert OfOpinion(rows + rows, o.id) == rows + rows;
    } else {
      assert end.committed + end.pending == rows;
    }
  }
}
