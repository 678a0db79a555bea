/** Chunking of extracted text into bounded search rows, for one text and for the pages or
    blocks of a document. */
module Extraction {
  import opened Wrappers
  import opened SlidingWindows
  import opened Text

  const MAX_CHUNK_CHARS: nat := 20_000
  const CHUNK_OVERLAP_CHARS: nat := 256
  const DEFAULT_MAX_TEXT_CHARS: nat := 5_000_000

  datatype ChunkRow = ChunkRow(page: Option<nat>, ordinal: nat, text: string)

  /** One unit handed to the chunker: a PDF page with its number, or an unnumbered block. */
  datatype Block = Block(page: Option<nat>, text: string)

  /** A parsed document; the parsers themselves are not modelled. */
  datatype Document =
    | Pdf(pages: seq<string>)
    | Docx(blocks: seq<string>)
    | Plain(text: string)

  predicate Blank(s: string) {
    forall c :: c in s ==> IsSpace(c)
  }

  // ----- one text -----

  ghost function Retained(text: string, budget: nat): string {
    if |text| <= budget then text else text[..budget]
  }

  ghost function Slice(text: string, w: Span): string {
    if w.lo <= w.hi <= |text| then text[w.lo..w.hi] else ""
  }

  /** Rows for the given windows of a text: blank windows are dropped, the others numbered. */
  ghost function RowsOf(text: string, windows: seq<Span>, page: Option<nat>, ordinal: nat): (rows: seq<ChunkRow>)
  {
    if windows == [] then []
    else
      var chunk := Slice(text, windows[0]);
      if Blank(chunk) then RowsOf(text, windows[1..], page, ordinal)
      else [ChunkRow(page, ordinal, chunk)] + RowsOf(text, windows[1..], page, ordinal + 1)
  }

  ghost function WindowsOf(text: string): seq<Span> {
    WindowsFrom(0, |text|, MAX_CHUNK_CHARS, CHUNK_OVERLAP_CHARS)
  }

  ghost function TextRows(text: string, page: Option<nat>, ordinal: nat, budget: nat): seq<ChunkRow> {
    var t := Retained(text, budget);
    if Blank(t) then [] else RowsOf(t, WindowsOf(t), page, ordinal)
  }

  ghost function BudgetAfter(text: string, budget: nat): (rest: nat)
    ensures rest <= budget
  {
    var t := Retained(text, budget);
    if Blank(t) then budget else budget - |t|
  }

  lemma RowsStep(done: seq<ChunkRow>, text: string, todo: seq<Span>, page: Option<nat>, ordinal: nat)
    requires todo != []
    ensures Blank(Slice(text, todo[0])) ==>
              done + RowsOf(text, todo, page, ordinal) == done + RowsOf(text, todo[1..], page, ordinal)
    ensures !Blank(Slice(text, todo[0])) ==>
              done + RowsOf(text, todo, page, ordinal)
              == done + [ChunkRow(page, ordinal, Slice(text, todo[0]))] + RowsOf(text, todo[1..], page, ordinal + 1)
  {
    hide Slice, Blank;
  }

  lemma {:induction false} NoMoreRows(text: string, page: Option<nat>, ordinal: nat)
    ensures RowsOf(text, [], page, ordinal) == []
  {}

  lemma NextWindow(offset: nat, n: nat)
    requires offset <= n
    ensures var windows := WindowsFrom(offset, n, MAX_CHUNK_CHARS, CHUNK_OVERLAP_CHARS);
            && windows != []
            && windows[0] == Span(offset, if n <= offset + MAX_CHUNK_CHARS then n else offset + MAX_CHUNK_CHARS)
            && windows[1..] == if n <= offset + MAX_CHUNK_CHARS then []
                               else WindowsFrom(offset + MAX_CHUNK_CHARS - CHUNK_OVERLAP_CHARS, n,
                                                MAX_CHUNK_CHARS, CHUNK_OVERLAP_CHARS)
  {}

  method CutWindows(text: string, page: Option<nat>, startOrdinal: nat) returns (rows: seq<ChunkRow>, ordinal: nat)
    requires text != ""
    ensures rows == RowsOf(text, WindowsOf(text), page, startOrdinal)
    ensures ordinal == startOrdinal + |rows|
  {
    hide RowsOf, WindowsFrom, Blank;
    rows, ordinal := [], startOrdinal;
    var offset := 0;
    ghost var todo := WindowsOf(text);
    ghost var total := RowsOf(text, todo, page, startOrdinal);
    while offset < |text|
      invariant offset < |text|
      invariant todo == WindowsFrom(offset, |text|, MAX_CHUNK_CHARS, CHUNK_OVERLAP_CHARS)
      invariant total == rows + RowsOf(text, todo, page, ordinal)
      invariant ordinal == startOrdinal + |rows|
      decreases |text| - offset
    {
      NextWindow(offset, |text|);
      var end := if |text| <= offset + MAX_CHUNK_CHARS then |text| else offset + MAX_CHUNK_CHARS;
      var chunk := text[offset..end];
      RowsStep(rows, text, todo, page, ordinal);
      if !Blank(chunk) {
        rows := rows + [ChunkRow(page, ordinal, chunk)];
        ordinal := ordinal + 1;
      }
      todo := todo[1..];
      if end >= |text| {
        NoMoreRows(text, page, ordinal);
        break;
      }
      offset := if offset + 1 < end - CHUNK_OVERLAP_CHARS then end - CHUNK_OVERLAP_CHARS else offset + 1;
    }
  }

  method BoundedChunks(text0: string, page: Option<nat>, startOrdinal: nat, budget: nat)
    returns (rows: seq<ChunkRow>, ordinal: nat, rest: nat)
    ensures rows == TextRows(text0, page, startOrdinal, budget)
    ensures ordinal == startOrdinal + |rows|
    ensures rest == BudgetAfter(text0, budget)
  {
    var text := if |text0| <= budget then text0 else text0[..budget];
    if Blank(text) {
      return [], startOrdinal, budget;
    }
    rows, ordinal := CutWindows(text, page, startOrdinal);
    rest := budget - |text|;
  }

  /** A sound trace back to the source: row k holds exactly the text of one window. */
  ghost predicate RowsMatch(rows: seq<ChunkRow>, text: string, windows: seq<Span>, page: Option<nat>, ordinal: nat) {
    && |rows| <= |windows|
    && (forall k :: 0 <= k < |rows| ==>
          && rows[k].page == page
          && rows[k].ordinal == ordinal + k
          && !Blank(rows[k].text)
          && exists w :: w in windows && rows[k].text == Slice(text, w))
  }

  lemma {:induction false} RowsComeFromWindows(text: string, windows: seq<Span>, page: Option<nat>, ordinal: nat)
    ensures RowsMatch(RowsOf(text, windows, page, ordinal), text, windows, page, ordinal)
  {
    hide Slice, Blank;
    if windows != [] {
      var rows := RowsOf(text, windows, page, ordinal);
      var blank := Blank(Slice(text, windows[0]));
      var rest := RowsOf(text, windows[1..], page, if blank then ordinal else ordinal + 1);
      RowsComeFromWindows(text, windows[1..], page, if blank then ordinal else ordinal + 1);
      forall k | 0 <= k < |rows|
        ensures && rows[k].page == page && rows[k].ordinal == ordinal + k && !Blank(rows[k].text)
                && exists w :: w in windows && rows[k].text == Slice(text, w)
      {
        if !blank && k == 0 {
          assert windows[0] in windows;
        } else {
          var r := if blank then k else k - 1;
          assert rows[k] == rest[r];
          var w :| w in windows[1..] && rest[r].text == Slice(text, w);
          assert w in windows;
        }
      }
    }
  }

  ghost predicate PieceAt(text: string, piece: string, at: nat) {
    at + |piece| <= |text| && text[at..at + |piece|] == piece
  }

  ghost predicate StoredWithin(rows: seq<ChunkRow>, piece: string) {
    exists k, at: nat :: 0 <= k < |rows| && PieceAt(rows[k].text, piece, at)
  }

  lemma {:induction false} WindowStored(text: string, windows: seq<Span>, page: Option<nat>, ordinal: nat, w: Span)
    requires w in windows && !Blank(Slice(text, w))
    ensures exists k :: 0 <= k < |RowsOf(text, windows, page, ordinal)|
                        && RowsOf(text, windows, page, ordinal)[k].text == Slice(text, w)
  {
    hide Slice, Blank;
    var rows := RowsOf(text, windows, page, ordinal);
    if windows[0] == w {
      assert rows[0].text == Slice(text, w);
    } else {
      var blank := Blank(Slice(text, windows[0]));
      var rest := RowsOf(text, windows[1..], page, if blank then ordinal else ordinal + 1);
      WindowStored(text, windows[1..], page, if blank then ordinal else ordinal + 1, w);
      var k :| 0 <= k < |rest| && rest[k].text == Slice(text, w);
      assert rows[if blank then k else k + 1] == rest[k];
    }
  }

  /** Any short enough piece of the retained text with something visible in it can be found
      whole inside one stored row: a phrase is never lost to a chunk boundary. */
  lemma PieceStored(text: string, page: Option<nat>, ordinal: nat, budget: nat, i: nat, j: nat)
    requires i <= j <= |Retained(text, budget)| && j - i <= CHUNK_OVERLAP_CHARS + 1
    requires !Blank(Retained(text, budget)[i..j])
    ensures StoredWithin(TextRows(text, page, ordinal, budget), Retained(text, budget)[i..j])
  {
    var t := Retained(text, budget);
    var windows := WindowsOf(t);
    ShortRangeCovered(0, |t|, MAX_CHUNK_CHARS, CHUNK_OVERLAP_CHARS, i, j);
    var w :| 0 <= w < |windows| && windows[w].lo <= i && j <= windows[w].hi;
    WindowsInBounds(0, |t|, MAX_CHUNK_CHARS, CHUNK_OVERLAP_CHARS);
    assert windows[w] in windows;
    var chunk := Slice(t, windows[w]);
    SubPiece(t, windows[w].lo, windows[w].hi, i, j);
    VisiblePiece(chunk, t[i..j], i - windows[w].lo);
    VisiblePiece(t, t[i..j], i);
    WindowStored(t, windows, page, ordinal, windows[w]);
    var rows := TextRows(text, page, ordinal, budget);
    var k :| 0 <= k < |rows| && rows[k].text == chunk;
    assert PieceAt(rows[k].text, t[i..j], i - windows[w].lo);
  }

  lemma SubPiece(text: string, lo: nat, hi: nat, i: nat, j: nat)
    requires lo <= i <= j <= hi <= |text|
    ensures PieceAt(text[lo..hi], text[i..j], i - lo)
    ensures PieceAt(text, text[i..j], i)
  {
    var piece, inner := text[i..j], text[lo..hi];
    assert inner[i - lo..j - lo] == piece by {
      forall k | 0 <= k < j - i
        ensures inner[i - lo..j - lo][k] == piece[k]
      {
        assert inner[i - lo + k] == text[i + k];
      }
    }
  }

  lemma VisiblePiece(text: string, piece: string, at: nat)
    requires PieceAt(text, piece, at) && !Blank(piece)
    ensures !Blank(text)
  {
    var c :| c in piece && !IsSpace(c);
    assert c in text[at..at + |piece|];
    assert c in text;
  }

  lemma PieceMember(text: string, piece: string, at: nat, c: char)
    requires PieceAt(text, piece, at) && c in piece
    ensures c in text
  {
    var k :| 0 <= k < |piece| && piece[k] == c;
    assert text[at..at + |piece|][k] == text[at + k];
  }

  /** 258 characters can be split: two chunks of this text each hold only one end of the piece. */
  lemma LongerPieceLost(start: string, middle: string)
    requires |start| == 19_743 && |middle| == 256
    requires 'b' !in start && 'c' !in start && 'b' !in middle && 'c' !in middle
    ensures |"b" + middle + "c"| == CHUNK_OVERLAP_CHARS + 2
    ensures !StoredWithin(TextRows(start + ("b" + middle + "c"), None, 0, DEFAULT_MAX_TEXT_CHARS), "b" + middle + "c")
  {
    var piece := "b" + middle + "c";
    var text := start + piece;
    var rows := TextRows(text, None, 0, DEFAULT_MAX_TEXT_CHARS);
    var windows := WindowsOf(text);
    assert WindowsFrom(19_744, 20_001, MAX_CHUNK_CHARS, CHUNK_OVERLAP_CHARS) == [Span(19_744, 20_001)];
    assert windows == [Span(0, 20_000), Span(19_744, 20_001)];
    assert 'b' in piece && 'c' in piece;
    assert Slice(text, Span(0, 20_000)) == start + ("b" + middle);
    assert Slice(text, Span(19_744, 20_001)) == middle + "c";
    hide RowsOf, Blank, Slice;
    RowsComeFromWindows(text, windows, None, 0);
    forall k, at: nat | 0 <= k < |rows|
      ensures !PieceAt(rows[k].text, piece, at)
    {
      assert rows[k].text == start + ("b" + middle) || rows[k].text == middle + "c";
      if PieceAt(rows[k].text, piece, at) {
        PieceMember(rows[k].text, piece, at, 'b');
        PieceMember(rows[k].text, piece, at, 'c');
      }
    }
  }

  /** The window count in the closed form the search uses to bound rows per file. */
  function MaxChunksPerFile(maxTextChars: int): (most: nat)
    ensures most > 0
  {
    var stride := MAX_CHUNK_CHARS - CHUNK_OVERLAP_CHARS;
    var extra := (maxTextChars - MAX_CHUNK_CHARS + stride - 1) / stride;
    1 + if extra > 0 then extra else 0
  }

  lemma WindowCountClosedForm(text: string)
    requires text != ""
    ensures |WindowsOf(text)| == MaxChunksPerFile(|text|)
  {
    WindowCount(0, |text|, MAX_CHUNK_CHARS, CHUNK_OVERLAP_CHARS);
  }

  /** A file made of one text stays within the bound, whatever it holds. */
  lemma SingleTextWithinBound(text: string, page: Option<nat>, ordinal: nat, budget: nat)
    ensures |TextRows(text, page, ordinal, budget)| <= MaxChunksPerFile(budget)
  {
    var t := Retained(text, budget);
    if !Blank(t) {
      RowsComeFromWindows(t, WindowsOf(t), page, ordinal);
      WindowCountClosedForm(t);
    }
  }

  // ----- pages and blocks -----

  ghost function BlockRows(blocks: seq<Block>, ordinal: nat, budget: nat): (rows: seq<ChunkRow>) {
    if blocks == [] || budget == 0 then []
    else
      var rows := TextRows(blocks[0].text, blocks[0].page, ordinal, budget);
      rows + BlockRows(blocks[1..], ordinal + |rows|, BudgetAfter(blocks[0].text, budget))
  }

  /** What of the blocks survives the budget, as one string. */
  ghost function RetainedText(blocks: seq<Block>, budget: nat): string {
    if blocks == [] || budget == 0 then ""
    else
      var t := Retained(blocks[0].text, budget);
      (if Blank(t) then "" else t) + RetainedText(blocks[1..], BudgetAfter(blocks[0].text, budget))
  }

  ghost function DocumentBlocks(doc: Document): seq<Block> {
    match doc
    case Pdf(pages) => seq(|pages|, k requires 0 <= k < |pages| => Block(Some(k + 1), pages[k]))
    case Docx(blocks) => seq(|blocks|, k requires 0 <= k < |blocks| => Block(None, blocks[k]))
    case Plain(text) => [Block(None, text)]
  }

  ghost function DocumentRows(doc: Document, maxTextChars: nat): seq<ChunkRow> {
    BlockRows(DocumentBlocks(doc), 0, maxTextChars)
  }

  lemma {:induction false} BlockStep(done: seq<ChunkRow>, blocks: seq<Block>, at: nat, ordinal: nat, budget: nat)
    requires at < |blocks| && budget > 0
    ensures var first := TextRows(blocks[at].text, blocks[at].page, ordinal, budget);
            && done + BlockRows(blocks[at..], ordinal, budget)
               == done + first + BlockRows(blocks[at + 1..], ordinal + |first|, BudgetAfter(blocks[at].text, budget))
  {
    hide TextRows, BudgetAfter;
    assert blocks[at..][1..] == blocks[at + 1..];
  }

  lemma {:induction false} NothingLeft(blocks: seq<Block>, ordinal: nat, budget: nat)
    requires |blocks| == 0 || budget == 0
    ensures BlockRows(blocks, ordinal, budget) == []
  {}

  method ExtractPages(pages: seq<string>, maxTextChars: nat) returns (rows: seq<ChunkRow>)
    ensures rows == DocumentRows(Pdf(pages), maxTextChars)
  {
    hide TextRows, BudgetAfter, BlockRows;
    rows := [];
    var ordinal, remaining, number := 0, maxTextChars, 0;
    ghost var blocks := DocumentBlocks(Pdf(pages));
    assert blocks[0..] == blocks;
    while number < |pages|
      invariant 0 <= number <= |pages|
      invariant ordinal == |rows|
      invariant BlockRows(blocks, 0, maxTextChars) == rows + BlockRows(blocks[number..], ordinal, remaining)
    {
      if remaining == 0 { break; }
      BlockStep(rows, blocks, number, ordinal, remaining);
      var pageRows: seq<ChunkRow>;
      pageRows, ordinal, remaining := BoundedChunks(pages[number], Some(number + 1), ordinal, remaining);
      rows := rows + pageRows;
      number := number + 1;
    }
    NothingLeft(blocks[number..], ordinal, remaining);
  }

  method ExtractParagraphs(texts: seq<string>, maxTextChars: nat) returns (rows: seq<ChunkRow>)
    ensures rows == DocumentRows(Docx(texts), maxTextChars)
  {
    hide TextRows, BudgetAfter, BlockRows;
    rows := [];
    var ordinal, remaining, at := 0, maxTextChars, 0;
    ghost var blocks := DocumentBlocks(Docx(texts));
    assert blocks[0..] == blocks;
    while at < |texts|
      invariant 0 <= at <= |texts|
      invariant ordinal == |rows|
      invariant BlockRows(blocks, 0, maxTextChars) == rows + BlockRows(blocks[at..], ordinal, remaining)
    {
      if remaining == 0 { break; }
      BlockStep(rows, blocks, at, ordinal, remaining);
      var blockRows: seq<ChunkRow>;
      blockRows, ordinal, remaining := BoundedChunks(texts[at], None, ordinal, remaining);
      rows := rows + blockRows;
      at := at + 1;
    }
    NothingLeft(blocks[at..], ordinal, remaining);
  }

  method ExtractChunks(doc: Document, maxTextChars: nat) returns (rows: seq<ChunkRow>, pageCount: Option<nat>)
    requires maxTextChars > 0
    ensures rows == DocumentRows(doc, maxTextChars)
    ensures pageCount == if doc.Pdf? then Some(|doc.pages|) else None
  {
    match doc {
      case Pdf(pages) =>
        rows := ExtractPages(pages, maxTextChars);
        pageCount := Some(|pages|);
      case Docx(texts) =>
        rows := ExtractParagraphs(texts, maxTextChars);
        pageCount := None;
      case Plain(text) =>
        var ordinal, remaining;
        rows, ordinal, remaining := BoundedChunks(text, None, 0, maxTextChars);
        assert BlockRows(DocumentBlocks(doc)[1..], |rows|, BudgetAfter(text, maxTextChars)) == [];
        pageCount := None;
    }
  }

  /** The block a row was cut from. */
  ghost predicate CutFrom(row: ChunkRow, block: Block) {
    && row.page == block.page
    && !Blank(row.text)
    && exists at: nat :: PieceAt(block.text, row.text, at)
  }

  lemma TextRowsCutFrom(block: Block, ordinal: nat, budget: nat)
    ensures var rows := TextRows(block.text, block.page, ordinal, budget);
            forall k :: 0 <= k < |rows| ==> rows[k].ordinal == ordinal + k && CutFrom(rows[k], block)
  {
    hide RowsOf, WindowsFrom, Blank;
    var t := Retained(block.text, budget);
    var rows := TextRows(block.text, block.page, ordinal, budget);
    if !Blank(t) {
      RowsComeFromWindows(t, WindowsOf(t), block.page, ordinal);
      WindowsInBounds(0, |t|, MAX_CHUNK_CHARS, CHUNK_OVERLAP_CHARS);
      forall k | 0 <= k < |rows|
        ensures rows[k].ordinal == ordinal + k && CutFrom(rows[k], block)
      {
        var w :| w in WindowsOf(t) && rows[k].text == Slice(t, w);
        SubPiece(block.text, 0, |block.text|, w.lo, w.hi);
        assert rows[k].text == block.text[w.lo..w.hi];
      }
    }
  }

  ghost predicate InBlockOrder(rows: seq<ChunkRow>, source: seq<nat>, blocks: seq<Block>, ordinal: nat) {
    && |source| == |rows|
    && (forall k :: 0 <= k < |rows| ==> rows[k].ordinal == ordinal + k)
    && (forall k :: 0 <= k < |rows| ==> source[k] < |blocks| && CutFrom(rows[k], blocks[source[k]]))
    && (forall k, m :: 0 <= k < m < |rows| ==> source[k] <= source[m])
  }

  lemma InBlockOrderPrepend(first: seq<ChunkRow>, rest: seq<ChunkRow>, source: seq<nat>, blocks: seq<Block>, ordinal: nat)
      returns (whole: seq<nat>)
    requires blocks != []
    requires forall k :: 0 <= k < |first| ==> first[k].ordinal == ordinal + k && CutFrom(first[k], blocks[0])
    requires InBlockOrder(rest, source, blocks[1..], ordinal + |first|)
    ensures InBlockOrder(first + rest, whole, blocks, ordinal)
  {
    hide CutFrom;
    var zeros: seq<nat> := seq(|first|, _ => 0);
    var later: seq<nat> := seq(|source|, k requires 0 <= k < |source| => source[k] + 1);
    whole := zeros + later;
    forall k | 0 <= k < |first + rest|
      ensures (first + rest)[k].ordinal == ordinal + k
      ensures whole[k] < |blocks| && CutFrom((first + rest)[k], blocks[whole[k]])
    {
      if k >= |first| {
        assert (first + rest)[k] == rest[k - |first|];
        assert whole[k] == source[k - |first|] + 1;
      }
    }
  }

  /** Rows of a multi-block document are numbered without gaps and each is cut, in order, from
      a block whose page number it carries; `source` names that block. */
  lemma {:induction false} RowsInBlockOrder(blocks: seq<Block>, ordinal: nat, budget: nat) returns (source: seq<nat>)
    ensures InBlockOrder(BlockRows(blocks, ordinal, budget), source, blocks, ordinal)
  {
    hide TextRows, BudgetAfter, CutFrom;
    if blocks == [] || budget == 0 {
      source := [];
    } else {
      var first := TextRows(blocks[0].text, blocks[0].page, ordinal, budget);
      TextRowsCutFrom(blocks[0], ordinal, budget);
      var rest := RowsInBlockOrder(blocks[1..], ordinal + |first|, BudgetAfter(blocks[0].text, budget));
      source := InBlockOrderPrepend(first, BlockRows(blocks[1..], ordinal + |first|, BudgetAfter(blocks[0].text, budget)),
                                    rest, blocks, ordinal);
    }
  }

  /** The stored rows of any document: ordinals 0..k-1, page numbers of a PDF in range, true
      of the text, and never going back. */
  lemma DocumentRowsNumbered(doc: Document, maxTextChars: nat)
    ensures var rows := DocumentRows(doc, maxTextChars);
            && (forall k :: 0 <= k < |rows| ==> rows[k].ordinal == k && !Blank(rows[k].text))
            && (doc.Pdf? ==> forall k :: 0 <= k < |rows| ==>
                  && rows[k].page.Some? && 1 <= rows[k].page.value <= |doc.pages|
                  && CutFrom(rows[k], Block(rows[k].page, doc.pages[rows[k].page.value - 1])))
            && (doc.Pdf? ==> forall k, m :: 0 <= k < m < |rows| && rows[k].page.Some? && rows[m].page.Some? ==>
                  rows[k].page.value <= rows[m].page.value)
            && (!doc.Pdf? ==> forall k :: 0 <= k < |rows| ==> rows[k].page == None)
  {
    hide BlockRows, PieceAt, Blank;
    var source := RowsInBlockOrder(DocumentBlocks(doc), 0, maxTextChars);
  }

  // ----- the budget -----

  ghost function VisibleText(blocks: seq<Block>): string {
    if blocks == [] then ""
    else (if Blank(blocks[0].text) then "" else blocks[0].text) + VisibleText(blocks[1..])
  }

  /** The guard that loses the order of the text: a block that is not blank but whose first
      `budget` characters are, so it is skipped without spending anything. */
  predicate HiddenByBudget(block: Block, budget: nat) {
    budget < |block.text| && Blank(block.text[..budget]) && !Blank(block.text)
  }

  /** No block is kept after one that was hidden by the budget. */
  ghost predicate NothingKeptAfterHidden(blocks: seq<Block>, budget: nat) {
    blocks == [] || budget == 0 ||
    if HiddenByBudget(blocks[0], budget) then NoneKept(blocks[1..], budget)
    else NothingKeptAfterHidden(blocks[1..], BudgetAfter(blocks[0].text, budget))
  }

  lemma {:induction false} NothingRetained(blocks: seq<Block>, budget: nat)
    requires NoneKept(blocks, budget)
    ensures RetainedText(blocks, budget) == ""
  {
    if blocks != [] && budget != 0 {
      NothingRetained(blocks[1..], budget);
    }
  }

  lemma {:induction false} SomethingRetained(blocks: seq<Block>, budget: nat, k: nat)
    requires 0 < budget && k < |blocks| && !Blank(Retained(blocks[k].text, budget))
    ensures 0 < |RetainedText(blocks, budget)| <= budget && !Blank(RetainedText(blocks, budget))
  {
    RetainedWithinBudget(blocks, budget);
    var t := Retained(blocks[0].text, budget);
    if Blank(t) {
      SomethingRetained(blocks[1..], budget, k - 1);
    } else {
      var c :| c in t && !IsSpace(c);
      assert c in RetainedText(blocks, budget);
    }
  }

  lemma {:induction false} RetainedWithinBudget(blocks: seq<Block>, budget: nat)
    ensures |RetainedText(blocks, budget)| <= budget
  {
    if blocks != [] && budget != 0 {
      RetainedWithinBudget(blocks[1..], BudgetAfter(blocks[0].text, budget));
    }
  }

  lemma PrefixUnderCommonStart(start: string, a: string, b: string)
    ensures start + a <= start + b <==> a <= b
  {
    if start + a <= start + b {
      forall k | 0 <= k < |a|
        ensures a[k] == b[k]
      {
        assert (start + a)[|start| + k] == (start + b)[|start| + k];
      }
    }
  }

  ghost predicate NoneKept(blocks: seq<Block>, budget: nat) {
    forall k {:trigger blocks[k]} :: 0 <= k < |blocks| ==> Blank(Retained(blocks[k].text, budget))
  }

  /** When the first block is hidden, the text kept after it can only be a prefix if it is empty. */
  lemma {:induction false} HiddenFirstBlock(blocks: seq<Block>, budget: nat)
    requires blocks != [] && budget != 0 && HiddenByBudget(blocks[0], budget)
    ensures RetainedText(blocks, budget) <= VisibleText(blocks) <==> NoneKept(blocks[1..], budget)
  {
    var text := blocks[0].text;
    var rest := RetainedText(blocks[1..], budget);
    assert RetainedText(blocks, budget) == rest;
    if NoneKept(blocks[1..], budget) {
      NothingRetained(blocks[1..], budget);
    } else {
      var k :| 0 <= k < |blocks[1..]| && !Blank(Retained(blocks[1..][k].text, budget));
      SomethingRetained(blocks[1..], budget, k);
      var c :| c in rest && !IsSpace(c);
      var at :| 0 <= at < |rest| && rest[at] == c;
      assert VisibleText(blocks)[at] == text[..budget][at];
      assert text[..budget][at] in text[..budget];
    }
  }

  /** The retained text is a prefix of the document's visible text exactly when nothing is
      kept after a block that the budget hid. */
  lemma {:induction false} RetainedIsPrefixIff(blocks: seq<Block>, budget: nat)
    ensures RetainedText(blocks, budget) <= VisibleText(blocks) <==> NothingKeptAfterHidden(blocks, budget)
  {
    if blocks == [] || budget == 0 {
    } else {
      var text := blocks[0].text;
      var t := Retained(text, budget);
      var rest := RetainedText(blocks[1..], BudgetAfter(text, budget));
      if HiddenByBudget(blocks[0], budget) {
        HiddenFirstBlock(blocks, budget);
      } else if Blank(text) {
        assert Blank(t) by { assert forall c :: c in t ==> c in text; }
        hide Blank;
        RetainedIsPrefixIff(blocks[1..], budget);
        assert RetainedText(blocks, budget) == "" + rest == rest;
        assert VisibleText(blocks) == "" + VisibleText(blocks[1..]) == VisibleText(blocks[1..]);
      } else if |text| <= budget {
        hide Blank;
        RetainedIsPrefixIff(blocks[1..], budget - |text|);
        PrefixUnderCommonStart(text, rest, VisibleText(blocks[1..]));
      } else {
        hide Blank;
        assert rest == "";
        assert RetainedText(blocks, budget) == t == VisibleText(blocks)[..budget];
      }
    }
  }

  /** The prefix property does fail: a leading run of blanks longer than what is left of the
      budget is skipped and a later block is stored in its place. */
  lemma HiddenBlockBreaksOrder()
    ensures var blocks := [Block(None, "  x"), Block(None, "y")];
            RetainedText(blocks, 2) == "y" && VisibleText(blocks) == "  xy"
  {
    var blocks := [Block(None, "  x"), Block(None, "y")];
    assert blocks[0].text[2] == 'x';
    assert Retained("  x", 2) == "  " && Blank("  ");
    assert blocks[1..] == [Block(None, "y")] && blocks[1..][1..] == [];
    assert 'y' in "y" && 'x' in "  x";
    assert Retained("y", 2) == "y";
    assert RetainedText(blocks[1..], 2) == "y" + RetainedText([], 1) == "y";
    assert VisibleText(blocks[1..]) == "y" + VisibleText([]) == "y";
    assert "  x" + "y" == "  xy";
  }

  // ----- the per-file bound the search relies on -----

  lemma {:induction false} ShortBlocksOneRowEach(count: nat, ordinal: nat, budget: nat)
    requires count <= budget
    ensures |BlockRows(seq(count, _ => Block(None, "x")), ordinal, budget)| == count
  {
    if count > 0 {
      var blocks: seq<Block> := seq(count, _ => Block(None, "x"));
      assert blocks[1..] == seq(count - 1, _ => Block(None, "x"));
      assert 'x' in "x";
      assert Retained("x", budget) == "x" && !Blank("x");
      assert WindowsOf("x") == [Span(0, 1)];
      assert Slice("x", Span(0, 1)) == "x";
      assert RowsOf("x", WindowsOf("x")[1..], None, ordinal + 1) == [];
      assert |TextRows("x", None, ordinal, budget)| == 1;
      ShortBlocksOneRowEach(count - 1, ordinal + 1, budget - 1);
    }
  }

  /** The bound is about characters, and a document of many short blocks breaks it: for every
      budget of two or more characters there is one that does. */
  lemma ManyShortBlocksExceedBound(maxTextChars: nat)
    requires 2 <= maxTextChars
    ensures exists doc: Document :: doc.Docx? && |DocumentRows(doc, maxTextChars)| > MaxChunksPerFile(maxTextChars)
  {
    var doc := Docx(seq(maxTextChars, _ => "x"));
    assert DocumentBlocks(doc) == seq(maxTextChars, _ => Block(None, "x"));
    ShortBlocksOneRowEach(maxTextChars, 0, maxTextChars);
    assert |DocumentRows(doc, maxTextChars)| > MaxChunksPerFile(maxTextChars);
  }

  const STRIDE: nat := MAX_CHUNK_CHARS - CHUNK_OVERLAP_CHARS

  /** The j-th window of a text, by its position alone. */
  function WindowAt(text: string, j: nat): string {
    var lo, hi := j * STRIDE, j * STRIDE + MAX_CHUNK_CHARS;
    if |text| <= lo then "" else if |text| <= hi then text[lo..] else text[lo..hi]
  }

  /** How many windows from the j-th on hold something visible. */
  function VisibleFrom(text: string, j: nat): (count: nat)
    ensures j < MaxChunksPerFile(|text|) ==> count <= MaxChunksPerFile(|text|) - j
    decreases MaxChunksPerFile(|text|) - j
  {
    if j >= MaxChunksPerFile(|text|) then 0
    else (if Blank(WindowAt(text, j)) then 0 else 1) + VisibleFrom(text, j + 1)
  }

  lemma {:induction false} WindowsAt(text: string, j: nat)
    requires j * STRIDE <= |text| && j < MaxChunksPerFile(|text|) && text != ""
    ensures var windows := WindowsFrom(j * STRIDE, |text|, MAX_CHUNK_CHARS, CHUNK_OVERLAP_CHARS);
      && windows != [] && Slice(text, windows[0]) == WindowAt(text, j)
      && (j + 1 == MaxChunksPerFile(|text|) <==> windows[1..] == [])
      && (j + 1 < MaxChunksPerFile(|text|) ==>
            && (j + 1) * STRIDE <= |text|
            && windows[1..] == WindowsFrom((j + 1) * STRIDE, |text|, MAX_CHUNK_CHARS, CHUNK_OVERLAP_CHARS))
  {
    NextWindow(j * STRIDE, |text|);
    hide WindowsFrom;
    assert (j + 1) * STRIDE == j * STRIDE + MAX_CHUNK_CHARS - CHUNK_OVERLAP_CHARS;
    LastWindow(|text|, j);
    if |text| > j * STRIDE + MAX_CHUNK_CHARS {
      NextWindow((j + 1) * STRIDE, |text|);
    }
  }

  lemma LastWindow(n: nat, j: nat)
    requires n > 0 && j < MaxChunksPerFile(n)
    ensures j + 1 == MaxChunksPerFile(n) <==> n <= j * STRIDE + MAX_CHUNK_CHARS
  {}

  lemma {:induction false} RowsCounted(text: string, j: nat, page: Option<nat>, ordinal: nat)
    requires text != "" && j * STRIDE <= |text| && j < MaxChunksPerFile(|text|)
    ensures |RowsOf(text, WindowsFrom(j * STRIDE, |text|, MAX_CHUNK_CHARS, CHUNK_OVERLAP_CHARS), page, ordinal)| == VisibleFrom(text, j)
    decreases MaxChunksPerFile(|text|) - j
  {
    WindowsAt(text, j);
    var windows := WindowsFrom(j * STRIDE, |text|, MAX_CHUNK_CHARS, CHUNK_OVERLAP_CHARS);
    hide WindowsFrom, Slice, Blank, WindowAt;
    var next := if Blank(WindowAt(text, j)) then ordinal else ordinal + 1;
    if j + 1 == MaxChunksPerFile(|text|) {
      NoMoreRows(text, page, next);
    } else {
      RowsCounted(text, j + 1, page, next);
    }
  }

  lemma {:induction false} BlankHasNoVisible(text: string, j: nat)
    requires Blank(text)
    ensures VisibleFrom(text, j) == 0
    decreases MaxChunksPerFile(|text|) - j
  {
    if j < MaxChunksPerFile(|text|) {
      assert Blank(WindowAt(text, j));
      hide Blank, WindowAt;
      BlankHasNoVisible(text, j + 1);
    }
  }

  /** The rows of one text are its windows that hold something visible, of which there are at
      most as many as the closed form says, and just as many when no window is blank. */
  lemma {:induction false} TextRowCount(text: string, page: Option<nat>, ordinal: nat, budget: nat)
    ensures |TextRows(text, page, ordinal, budget)| == VisibleFrom(Retained(text, budget), 0)
  {
    var t := Retained(text, budget);
    if Blank(t) {
      BlankHasNoVisible(t, 0);
    } else {
      RowsCounted(t, 0, page, ordinal);
    }
  }

  ghost predicate NoBlankWindow(text: string) {
    forall k: nat :: k < MaxChunksPerFile(|text|) ==> !Blank(WindowAt(text, k))
  }

  lemma {:induction false} AllWindowsVisible(text: string, j: nat)
    requires NoBlankWindow(text) && j <= MaxChunksPerFile(|text|)
    ensures VisibleFrom(text, j) == MaxChunksPerFile(|text|) - j
    decreases MaxChunksPerFile(|text|) - j
  {
    hide Blank, WindowAt, MaxChunksPerFile;
    if j < MaxChunksPerFile(|text|) {
      assert !Blank(WindowAt(text, j));
      AllWindowsVisible(text, j + 1);
    }
  }

  /** The rows of a block list: for each block what the budget leaves of it, in windows that
      hold something visible. */
  function RowCount(blocks: seq<Block>, budget: nat): nat {
    if blocks == [] || budget == 0 then 0
    else
      var text := blocks[0].text;
      var t := if |text| <= budget then text else text[..budget];
      VisibleFrom(t, 0) + RowCount(blocks[1..], if Blank(t) then budget else budget - |t|)
  }

  lemma {:induction false} BlockRowCount(blocks: seq<Block>, ordinal: nat, budget: nat)
    ensures |BlockRows(blocks, ordinal, budget)| == RowCount(blocks, budget)
  {
    hide TextRows, VisibleFrom, Blank;
    if blocks != [] && budget != 0 {
      var first := TextRows(blocks[0].text, blocks[0].page, ordinal, budget);
      TextRowCount(blocks[0].text, blocks[0].page, ordinal, budget);
      BlockRowCount(blocks[1..], ordinal + |first|, BudgetAfter(blocks[0].text, budget));
    }
  }

  /** The windows of what the budget leaves of each block, in closed form. */
  function WindowSum(blocks: seq<Block>, budget: nat): int {
    if blocks == [] || budget == 0 then 0
    else
      var text := blocks[0].text;
      var t := if |text| <= budget then text else text[..budget];
      if Blank(t) then WindowSum(blocks[1..], budget)
      else MaxChunksPerFile(|t|) + WindowSum(blocks[1..], budget - |t|)
  }

  ghost predicate NoBlankWindows(blocks: seq<Block>, budget: nat) {
    blocks == [] || budget == 0 ||
    var t := Retained(blocks[0].text, budget);
    (Blank(t) || NoBlankWindow(t)) && NoBlankWindows(blocks[1..], BudgetAfter(blocks[0].text, budget))
  }

  /** Blank windows aside, the rows are the windows of the retained lengths. */
  lemma {:induction false} RowCountOfLengths(blocks: seq<Block>, budget: nat)
    ensures RowCount(blocks, budget) <= WindowSum(blocks, budget)
    ensures NoBlankWindows(blocks, budget) ==> RowCount(blocks, budget) == WindowSum(blocks, budget)
  {
    hide VisibleFrom, MaxChunksPerFile, NoBlankWindow;
    if blocks != [] && budget != 0 {
      var text := blocks[0].text;
      var t := Retained(text, budget);
      if Blank(t) {
        BlankHasNoVisible(t, 0);
      } else {
        VisibleBounded(t);
        if NoBlankWindow(t) {
          AllWindowsVisible(t, 0);
        }
      }
      hide Blank;
      RowCountOfLengths(blocks[1..], BudgetAfter(text, budget));
    }
  }

  lemma {:induction false} VisibleBounded(text: string)
    ensures VisibleFrom(text, 0) <= MaxChunksPerFile(|text|) && 0 < MaxChunksPerFile(|text|)
  {
    assert 0 < MaxChunksPerFile(|text|);
    hide VisibleFrom, MaxChunksPerFile;
  }

  /** Which documents meet the search's bound on rows per file: exactly those whose visible
      windows, counted block by block, do not exceed it; and, where no window is blank, exactly
      those whose retained lengths make no more windows than it. */
  lemma {:induction false} DocumentWithinBoundIff(doc: Document, maxTextChars: nat)
    ensures |DocumentRows(doc, maxTextChars)| == RowCount(DocumentBlocks(doc), maxTextChars)
    ensures |DocumentRows(doc, maxTextChars)| <= MaxChunksPerFile(maxTextChars)
      <==> RowCount(DocumentBlocks(doc), maxTextChars) <= MaxChunksPerFile(maxTextChars)
    ensures NoBlankWindows(DocumentBlocks(doc), maxTextChars) ==>
      (|DocumentRows(doc, maxTextChars)| <= MaxChunksPerFile(maxTextChars)
       <==> WindowSum(DocumentBlocks(doc), maxTextChars) <= MaxChunksPerFile(maxTextChars))
  {
    hide RowCount, WindowSum, NoBlankWindows, BlockRows, MaxChunksPerFile;
    BlockRowCount(DocumentBlocks(doc), 0, maxTextChars);
    RowCountOfLengths(DocumentBlocks(doc), maxTextChars);
  }

  lemma PlainDocumentWithinBound(text: string, maxTextChars: nat)
    requires maxTextChars > 0
    ensures |DocumentRows(Plain(text), maxTextChars)| <= MaxChunksPerFile(maxTextChars)
  {
    SingleTextWithinBound(text, None, 0, maxTextChars);
    var blocks := DocumentBlocks(Plain(text));
    var first := TextRows(text, None, 0, maxTextChars);
    assert BlockRows(blocks[1..], |first|, BudgetAfter(text, maxTextChars)) == [];
  }
}
