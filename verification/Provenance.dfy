/**
 Parser and chunker together: every stored chunk is the slice of the document its
 offsets name, nothing visible is lost, and ordinals follow the document.
 */
module Provenance {
  import opened Wrappers
  import opened Text
  import opened Parsing
  import opened Chunking

  /** A slice of the document, visible at both ends and no longer than allowed. */
  ghost predicate Cites(text: string, from: nat, to: nat, source: string, limit: int) {
    && from < to <= |source| && source[from..to] == text && |text| <= limit
    && !IsSpace(source[from]) && !IsSpace(source[to - 1])
  }

  ghost predicate PieceCites(p: Piece, source: string, limit: int) {
    Cites(p.text, p.start, p.start + |p.text|, source, limit)
  }

  predicate PieceCovers(p: Piece, q: nat) {
    p.start <= q < p.start + |p.text|
  }

  // ----- one window -----

  lemma StrippedSlice(source: string, from: nat, to: nat, limit: int)
    requires from <= to <= |source| && to <= from + limit
    ensures var raw := source[from..to];
            var start := from + Lead(raw);
            && (Strip(raw) != "" ==>
                  Cites(Strip(raw), start, start + |Strip(raw)|, source, limit) && start + |Strip(raw)| <= to)
            && forall q | from <= q < to && !IsSpace(source[q]) :: start <= q < start + |Strip(raw)|
  {
    hide IsSpace, Strip, Lead;
    var raw := source[from..to];
    StripIsSlice(raw);
    assert forall q | from <= q < to :: source[q] == raw[q - from];
    var start, end := from + Lead(raw), from + Lead(raw) + |Strip(raw)|;
    SliceOfSlice(source, from, to, Lead(raw), Lead(raw) + |Strip(raw)|);
    if Strip(raw) != "" {
      assert source[start] == Strip(raw)[0] && source[end - 1] == Strip(raw)[|Strip(raw)| - 1];
    }
  }

  lemma SliceOfSlice(s: string, from: nat, to: nat, i: nat, j: nat)
    requires from <= to <= |s| && i <= j <= to - from
    ensures s[from..to][i..j] == s[from + i..from + j]
  {
    var a, b := s[from..to][i..j], s[from + i..from + j];
    assert forall k | 0 <= k < j - i :: a[k] == s[from + i + k] == b[k];
    assert |a| == |b|;
    assert a == b;
  }

  /** What a window yields: exactly what is visible in it. */
  lemma WindowPiece(source: string, limit: int, text: string, base: nat, w: Window)
    requires base + |text| <= |source| && source[base..base + |text|] == text
    requires w.from <= w.to <= |text| && w.to <= w.from + limit
    ensures forall p | p in PieceOf(text, base, w) ::
      PieceCites(p, source, limit) && base + w.from <= p.start && p.start + |p.text| <= base + w.to
    ensures forall q | base + w.from <= q < base + w.to && !IsSpace(source[q]) ::
      |PieceOf(text, base, w)| > 0 && PieceCovers(PieceOf(text, base, w)[0], q)
  {
    hide IsSpace, Strip, Lead, Cites;
    assert forall q | 0 <= q < |text| :: text[q] == source[base..base + |text|][q] == source[base + q];
    assert text[w.from..w.to] == source[base + w.from..base + w.to];
    StrippedSlice(source, base + w.from, base + w.to, limit);
  }

  // ----- one block -----

  lemma {:induction false} PieceHasWindow(text: string, base: nat, ws: seq<Window>, p: Piece)
    requires forall i | 0 <= i < |ws| :: ws[i].from <= ws[i].to <= |text|
    ensures p in PiecesOf(text, base, ws) <==> exists i | 0 <= i < |ws| :: p in PieceOf(text, base, ws[i])
  {
    hide PieceOf;
    if |ws| > 0 {
      var front, last := ws[..|ws| - 1], ws[|ws| - 1];
      PieceHasWindow(text, base, front, p);
      if i :| 0 <= i < |ws| && p in PieceOf(text, base, ws[i]) {
        assert i < |front| ==> front[i] == ws[i];
      }
      if p in PiecesOf(text, base, front) {
        var i :| 0 <= i < |front| && p in PieceOf(text, base, front[i]);
        assert ws[i] == front[i];
      }
    }
  }

  /** In reading order: neither starts nor ends go back. */
  ghost predicate InOrder(ps: seq<Piece>) {
    forall i, j | 0 <= i < j < |ps| :: NotAfter(ps[i], ps[j])
  }

  predicate NotAfter(p: Piece, q: Piece) {
    p.start <= q.start && p.start + |p.text| <= q.start + |q.text|
  }

  lemma {:induction false} WindowsInOrder(c: Settings, text: string, ws: seq<Window>, i: nat, j: nat)
    requires c.Valid() && Stepping(c, text, ws) && i < j < |ws|
    ensures ws[i].from <= ws[j].from && ws[i].to <= ws[j].to
  {
    hide WindowEnd;
    assert Steps(c, text, ws[j - 1], ws[j]);
    if i < j - 1 {
      WindowsInOrder(c, text, ws, i, j - 1);
    }
  }

  lemma PiecesOfWindowsInOrder(source: string, limit: int, text: string, base: nat, v: Window, w: Window, p: Piece, q: Piece)
    requires base + |text| <= |source| && source[base..base + |text|] == text
    requires v.from <= v.to <= |text| && v.to <= v.from + limit
    requires w.from <= w.to <= |text| && w.to <= w.from + limit
    requires v.from <= w.from && v.to <= w.to
    requires p in PieceOf(text, base, v) && q in PieceOf(text, base, w)
    ensures NotAfter(p, q)
  {
    hide PieceOf, IsSpace;
    WindowPiece(source, limit, text, base, v);
    WindowPiece(source, limit, text, base, w);
    AtMostOne(text, base, v);
    AtMostOne(text, base, w);
    if q.start < base + v.to {
      assert PieceCovers(p, q.start);
    }
    var end := p.start + |p.text| - 1;
    if base + w.from <= end {
      assert PieceCovers(q, end);
    }
  }

  lemma {:induction false} PiecesInOrder(c: Settings, source: string, text: string, base: nat, ws: seq<Window>)
    requires c.Valid() && Stepping(c, text, ws)
    requires base + |text| <= |source| && source[base..base + |text|] == text
    ensures InOrder(PiecesOf(text, base, ws))
  {
    hide PieceOf, Steps, NotAfter;
    if |ws| > 0 {
      var n := |ws| - 1;
      var front, last := ws[..n], ws[n];
      SteppingFront(c, text, ws);
      PiecesInOrder(c, source, text, base, front);
      var ps, qs := PiecesOf(text, base, front), PieceOf(text, base, last);
      forall i, j | 0 <= i < |ps| && 0 <= j < |qs|
        ensures NotAfter(ps[i], qs[j])
      {
        PieceHasWindow(text, base, front, ps[i]);
        var k :| 0 <= k < |front| && ps[i] in PieceOf(text, base, front[k]);
        WindowsInOrder(c, text, ws, k, n);
        PiecesOfWindowsInOrder(source, c.chunkSize, text, base, ws[k], last, ps[i], qs[j]);
      }
      AtMostOne(text, base, last);
    }
  }

  lemma SteppingFront(c: Settings, text: string, ws: seq<Window>)
    requires Stepping(c, text, ws) && |ws| > 0
    ensures Stepping(c, text, ws[..|ws| - 1])
  {
    hide Steps;
    var front := ws[..|ws| - 1];
    forall i | 0 < i < |front|
      ensures Steps(c, text, front[i - 1], front[i])
    {
      assert Steps(c, text, ws[i - 1], ws[i]);
    }
  }

  lemma AtMostOne(text: string, base: nat, w: Window)
    requires w.from <= w.to <= |text|
    ensures |PieceOf(text, base, w)| <= 1
  {
  }

  ghost predicate WithinBlock(p: Piece, b: Block) {
    Base(b) <= p.start && p.start + |p.text| <= Base(b) + |b.text|
  }

  /** The pieces of a block that locates itself. */
  lemma BlockPiecesCite(c: Settings, b: Block, source: string)
    requires c.Valid() && LiesIn(b, source)
    ensures forall p | p in BlockPieces(c, b) :: PieceCites(p, source, c.chunkSize) && WithinBlock(p, b)
    ensures InOrder(BlockPieces(c, b))
  {
    hide PieceOf, PiecesOf, PieceCites, InOrder, Steps;
    var ws := AllWindows(c, b.text);
    AllWindowsInBounds(c, b.text);
    forall p | p in BlockPieces(c, b)
      ensures PieceCites(p, source, c.chunkSize) && WithinBlock(p, b)
    {
      PieceHasWindow(b.text, Base(b), ws, p);
      var i :| 0 <= i < |ws| && p in PieceOf(b.text, Base(b), ws[i]);
      WindowPiece(source, c.chunkSize, b.text, Base(b), ws[i]);
    }
    PiecesInOrder(c, source, b.text, Base(b), ws);
  }

  lemma BlockPiecesCover(c: Settings, b: Block, source: string, q: nat)
    requires c.Valid() && LiesIn(b, source) && Covers(b, q) && !IsSpace(source[q])
    ensures exists p | p in BlockPieces(c, b) :: PieceCovers(p, q)
  {
    hide PieceOf, PiecesOf, IsSpace, Steps, Windows;
    var text, base := b.text, Base(b);
    var ws := AllWindows(c, text);
    AllWindowsInBounds(c, text);
    WindowsCover(c, text, 0, q - base);
    var i :| 0 <= i < |ws| && ws[i].from <= q - base < ws[i].to;
    WindowPiece(source, c.chunkSize, text, base, ws[i]);
    var p := PieceOf(text, base, ws[i])[0];
    PieceHasWindow(text, base, ws, p);
  }

  // ----- the whole document -----

  ghost predicate ChunkCites(ch: Chunk, source: string, limit: int) {
    Cites(ch.text, ch.charStart, ch.charEnd, source, limit)
  }

  predicate ChunkCovers(ch: Chunk, q: nat) {
    ch.charStart <= q < ch.charEnd
  }

  /** What retrieval relies on: chunks are numbered in reading order, each is the
      slice of the document its offsets name, and they cover what is visible. */
  ghost predicate Provenant(chunks: seq<Chunk>, source: string, end: nat, limit: int) {
    && (forall i | 0 <= i < |chunks| :: chunks[i].ordinal == i && ChunkCites(chunks[i], source, limit) && chunks[i].charEnd <= end)
    && InReadingOrder(chunks) && CoverVisible(chunks, source, end)
  }

  ghost predicate InReadingOrder(chunks: seq<Chunk>) {
    forall i, j | 0 <= i < j < |chunks| :: chunks[i].charStart <= chunks[j].charStart && chunks[i].charEnd <= chunks[j].charEnd
  }

  ghost predicate CoverVisible(chunks: seq<Chunk>, source: string, end: nat) {
    forall q | 0 <= q < end <= |source| && !IsSpace(source[q]) :: exists ch | ch in chunks :: ChunkCovers(ch, q)
  }

  lemma OneMoreBlockInOrder(before: seq<Chunk>, ps: seq<Piece>, page: Option<nat>, source: string, limit: int, end: nat)
    requires InReadingOrder(before) && InOrder(ps)
    requires forall ch | ch in before :: ChunkCites(ch, source, limit) && ch.charEnd <= end
    requires forall p | p in ps :: end <= p.start
    ensures InReadingOrder(before + Numbered(ps, page, |before|))
  {
    hide Cites;
    var chunks := before + Numbered(ps, page, |before|);
    forall i, j | 0 <= i < j < |chunks|
      ensures chunks[i].charStart <= chunks[j].charStart && chunks[i].charEnd <= chunks[j].charEnd
    {
      if i < |before| <= j {
        assert before[i] in before && ps[j - |before|] in ps;
        CitesSomething(before[i], source, limit);
      } else if |before| <= i {
        assert NotAfter(ps[i - |before|], ps[j - |before|]);
      }
    }
  }

  lemma OneMoreBlockCovers(c: Settings, before: seq<Chunk>, source: string, end: nat, b: Block, next: nat)
    requires c.Valid() && LiesIn(b, source) && CoverVisible(before, source, end) && end <= next <= |source|
    requires forall q | end <= q < next && !IsSpace(source[q]) :: Covers(b, q)
    ensures CoverVisible(before + Numbered(BlockPieces(c, b), b.page, |before|), source, next)
  {
    hide BlockPieces, IsSpace, LiesIn;
    var ps := BlockPieces(c, b);
    var chunks := before + Numbered(ps, b.page, |before|);
    forall q | 0 <= q < next && !IsSpace(source[q])
      ensures exists ch | ch in chunks :: ChunkCovers(ch, q)
    {
      if q < end {
        var ch :| ch in before && ChunkCovers(ch, q);
        assert ch in chunks;
      } else {
        BlockPiecesCover(c, b, source, q);
        var p :| p in ps && PieceCovers(p, q);
        var i :| 0 <= i < |ps| && ps[i] == p;
        assert ChunkCovers(chunks[|before| + i], q);
      }
    }
  }

  lemma OneMoreBlockProvenant(c: Settings, before: seq<Chunk>, source: string, end: nat, b: Block, next: nat)
    requires c.Valid() && LiesIn(b, source) && Provenant(before, source, end, c.chunkSize)
    requires end <= b.charStart.value && b.charEnd.value <= next <= |source|
    requires forall q | end <= q < next && !IsSpace(source[q]) :: Covers(b, q)
    ensures Provenant(before + Numbered(BlockPieces(c, b), b.page, |before|), source, next, c.chunkSize)
  {
    hide BlockPieces, IsSpace, Cites, InReadingOrder, CoverVisible, InOrder;
    BlockPiecesCite(c, b, source);
    var ps := BlockPieces(c, b);
    var chunks := before + Numbered(ps, b.page, |before|);
    OneMoreBlockInOrder(before, ps, b.page, source, c.chunkSize, end);
    OneMoreBlockCovers(c, before, source, end, b, next);
    forall i | 0 <= i < |chunks|
      ensures ChunkCites(chunks[i], source, c.chunkSize) && chunks[i].charEnd <= next
    {
      if i >= |before| {
        assert ps[i - |before|] in ps;
      }
    }
  }

  lemma CitesSomething(ch: Chunk, source: string, limit: int)
    requires ChunkCites(ch, source, limit)
    ensures ch.charStart < ch.charEnd
  {
  }

  /** Chunking blocks that locate themselves. */
  lemma {:induction false} ChunksProvenant(c: Settings, blocks: seq<Block>, source: string, end: nat)
    requires c.Valid() && LocatesUpTo(blocks, source, end) && end <= |source|
    ensures Provenant(Chunks(c, blocks), source, end, c.chunkSize)
  {
    hide BlockPieces, IsSpace, Numbered, Provenant;
    if |blocks| == 0 {
      NothingProvenant(source, end, c.chunkSize);
    } else {
      var n := |blocks| - 1;
      var front, last := blocks[..n], blocks[n];
      var mid := last.charStart.value;
      LocatesFront(blocks, source, end);
      ChunksProvenant(c, front, source, mid);
      OneMoreBlockProvenant(c, Chunks(c, front), source, mid, last, end);
    }
  }

  lemma NothingProvenant(source: string, end: nat, limit: int)
    requires LocatesUpTo([], source, end)
    ensures Provenant([], source, end, limit)
  {
  }

  lemma LocatesFront(blocks: seq<Block>, source: string, end: nat)
    requires |blocks| > 0 && LocatesUpTo(blocks, source, end) && end <= |source|
    ensures var n := |blocks| - 1;
            && LiesIn(blocks[n], source) && LocatesUpTo(blocks[..n], source, blocks[n].charStart.value)
            && forall q | blocks[n].charStart.value <= q < end && !IsSpace(source[q]) :: Covers(blocks[n], q)
  {
    hide IsSpace, Blank, LiesIn, Covers;
    var n := |blocks| - 1;
    LastIsLast(blocks, source, end);
    var front, mid := blocks[..n], blocks[n].charStart.value;
    forall q | 0 <= q < end && !IsSpace(source[q])
      ensures if q < mid then exists i | 0 <= i < n :: Covers(front[i], q) else Covers(blocks[n], q)
    {
      var i :| 0 <= i < |blocks| && Covers(blocks[i], q);
      if i < n {
        CoversBefore(blocks, source, end, i, q);
        assert front[i] == blocks[i];
      } else {
        CoversAfter(blocks[n], q);
      }
    }
  }

  lemma LastIsLast(blocks: seq<Block>, source: string, end: nat)
    requires |blocks| > 0 && LocatesUpTo(blocks, source, end)
    ensures var last := blocks[|blocks| - 1]; LiesIn(last, source) && last.charStart.Some? && last.charStart.value <= end
  {
  }

  lemma CoversBefore(blocks: seq<Block>, source: string, end: nat, i: nat, q: nat)
    requires |blocks| > 0 && LocatesUpTo(blocks, source, end) && i < |blocks| - 1 && Covers(blocks[i], q)
    ensures blocks[|blocks| - 1].charStart.Some? && q < blocks[|blocks| - 1].charStart.value
  {
    hide IsSpace, Blank;
    assert LiesIn(blocks[i], source) && LiesIn(blocks[|blocks| - 1], source);
  }

  lemma CoversAfter(b: Block, q: nat)
    requires Covers(b, q)
    ensures b.charStart.Some? && b.charStart.value <= q
  {
  }

  /** The chunk is a piece of the block, which starts where it says or else at zero,
      and carries its page. */
  ghost predicate ComesFrom(ch: Chunk, b: Block) {
    var base := match b.charStart case Some(at) => at case None => 0;
    && base <= ch.charStart && ch.charEnd <= base + |b.text| && ch.charEnd == ch.charStart + |ch.text|
    && ch.text == b.text[ch.charStart - base..ch.charEnd - base] && ch.page == b.page
  }

  /** Where a block lies in its document is only added to the offsets. */
  lemma {:induction false} PiecesShift(text: string, base: nat, ws: seq<Window>, k: nat)
    requires forall i | 0 <= i < |ws| :: ws[i].from <= ws[i].to <= |text|
    requires k < |PiecesOf(text, base, ws)|
    ensures |PiecesOf(text, 0, ws)| == |PiecesOf(text, base, ws)|
    ensures PiecesOf(text, base, ws)[k] == Piece(PiecesOf(text, 0, ws)[k].text, base + PiecesOf(text, 0, ws)[k].start)
  {
    hide Strip, Lead;
    var n := |ws| - 1;
    if k < |PiecesOf(text, base, ws[..n])| {
      PiecesShift(text, base, ws[..n], k);
    } else if |PiecesOf(text, base, ws[..n])| > 0 {
      PiecesShift(text, base, ws[..n], 0);
    } else {
      NoShift(text, base, ws[..n]);
    }
  }

  lemma {:induction false} NoShift(text: string, base: nat, ws: seq<Window>)
    requires forall i | 0 <= i < |ws| :: ws[i].from <= ws[i].to <= |text|
    ensures |PiecesOf(text, 0, ws)| == |PiecesOf(text, base, ws)|
  {
    hide Strip, Lead;
    if |ws| > 0 {
      NoShift(text, base, ws[..|ws| - 1]);
    }
  }

  /** The pieces of any block, with or without offsets of its own, are slices of it. */
  lemma PieceIsOfBlock(c: Settings, b: Block, k: nat)
    requires c.Valid() && k < |BlockPieces(c, b)|
    ensures ComesFrom(ChunkOf(BlockPieces(c, b)[k], 0, b.page), b)
  {
    hide PiecesOf, AllWindows, InOrder;
    AllWindowsInBounds(c, b.text);
    PiecesShift(b.text, Base(b), AllWindows(c, b.text), k);
    var own := Block(b.text, b.page, Some(0), Some(|b.text|), b.kind);
    assert b.text[0..|b.text|] == b.text;
    BlockPiecesCite(c, own, b.text);
    assert BlockPieces(c, own)[k] in BlockPieces(c, own);
  }

  /** Every chunk is a piece of one of the blocks. */
  lemma {:induction false} ChunkHasBlock(c: Settings, blocks: seq<Block>, ch: Chunk)
    requires c.Valid() && ch in Chunks(c, blocks)
    ensures exists b | b in blocks :: ComesFrom(ch, b)
  {
    hide BlockPieces, ComesFrom;
    var n := |blocks| - 1;
    var front, last := blocks[..n], blocks[n];
    if ch in Chunks(c, front) {
      ChunkHasBlock(c, front, ch);
    } else {
      var before, ps := Chunks(c, front), BlockPieces(c, last);
      assert Chunks(c, blocks) == before + Numbered(ps, last.page, |before|);
      var k :| 0 <= k < |ps| && Numbered(ps, last.page, |before|)[k] == ch;
      PieceIsOfBlock(c, last, k);
      SameBut(ChunkOf(ps[k], 0, last.page), ch, last);
    }
  }

  lemma SameBut(a: Chunk, b: Chunk, block: Block)
    requires ComesFrom(a, block) && a.(ordinal := b.ordinal) == b
    ensures ComesFrom(b, block)
  {
  }

  /** No chunk of a text runs across a blank line. */
  lemma NoBlankLineInChunk(c: Settings, text: string, ch: Chunk, i: nat, e: nat)
    requires c.Valid() && ch in Chunks(c, BlocksOf(text, Spans(text))) && ChunkCovers(ch, i)
    ensures i < |text| && !BlankLine(text, i, e) && ch.page == None
  {
    hide BlocksOf, Spans, Chunks, BlankLine;
    var blocks := BlocksOf(text, Spans(text));
    ChunkHasBlock(c, blocks, ch);
    var b :| b in blocks && ComesFrom(ch, b);
    TextBlocksLocate(text);
    assert Locates(blocks, text);
    BlockKind(text, Spans(text), b);
    NoBlankLineInside(text, b, i, e);
  }

  /** The chunk lies on the `i`-th visible page, whose number it carries, and is a slice of it. */
  ghost predicate OnPage(ch: Chunk, pages: seq<PageText>, i: nat)
    requires i < |VisiblePages(pages)|
  {
    var v, at := VisiblePages(pages)[i], NextOffset(VisiblePages(pages)[..i]);
    && ch.page == Some(v.number) && 1 <= v.number <= |pages| && pages[v.number - 1].Extracted?
    && at <= ch.charStart && ch.charEnd == ch.charStart + |ch.text| && ch.charEnd - at <= |Strip(pages[v.number - 1].text)|
    && ch.text == Strip(pages[v.number - 1].text)[ch.charStart - at..ch.charEnd - at]
  }

  /** Every chunk of a PDF carries the number of the page it is a slice of. */
  lemma PdfChunksCarryPages(c: Settings, pages: seq<PageText>, ch: Chunk)
    requires c.Valid() && ch in Chunks(c, PageBlocks(VisiblePages(pages)))
    ensures exists i | 0 <= i < |VisiblePages(pages)| :: OnPage(ch, pages, i)
  {
    hide Chunks, PageBlocks, VisiblePages, Strip;
    var visible := VisiblePages(pages);
    ChunkHasBlock(c, PageBlocks(visible), ch);
    var b :| b in PageBlocks(visible) && ComesFrom(ch, b);
    PageBlockIs(visible, b);
    var i :| 0 <= i < |visible| && IsPageBlock(visible, b, i);
    VisiblePageIs(pages, i);
    assert OnPage(ch, pages, i);
  }

  /** A text document, parsed and chunked. */
  method ChunkText(c: Settings, text: string) returns (chunks: seq<Chunk>)
    requires c.Valid()
    ensures Provenant(chunks, text, |text|, c.chunkSize)
    ensures chunks == Chunks(c, BlocksOf(text, Spans(text)))
    ensures forall ch, i: nat, e: nat | ch in chunks && ChunkCovers(ch, i) :: !BlankLine(text, i, e)
  {
    hide Provenant, Locates, Chunks, BlocksOf, BlankLine, ChunkCovers;
    var blocks := ParseText(text);
    chunks := ChunkBlocks(c, blocks);
    TextChunksProvenant(c, text);
    forall ch, i: nat, e: nat | ch in chunks && ChunkCovers(ch, i)
      ensures !BlankLine(text, i, e)
    {
      NoBlankLineInChunk(c, text, ch, i, e);
    }
  }

  lemma TextChunksProvenant(c: Settings, text: string)
    requires c.Valid()
    ensures Provenant(Chunks(c, BlocksOf(text, Spans(text))), text, |text|, c.chunkSize)
  {
    hide Provenant, LocatesUpTo, Chunks, BlocksOf;
    TextBlocksLocate(text);
    ChunksProvenant(c, BlocksOf(text, Spans(text)), text, |text|);
  }

  /** A PDF, as its visible pages with one white-space character between them. */
  method ChunkPages(c: Settings, pages: seq<PageText>) returns (r: Result<seq<Chunk>, nat>)
    requires c.Valid()
    ensures r.Success? <==> Unreadable !in pages
    ensures r.Success? ==> forall sep | IsSpace(sep) ::
      var source := Joined(VisiblePages(pages), sep); Provenant(r.value, source, |source|, c.chunkSize)
    ensures r.Success? ==> forall ch | ch in r.value :: exists i | 0 <= i < |VisiblePages(pages)| :: OnPage(ch, pages, i)
  {
    hide Provenant, LocatesUpTo, Chunks, IsSpace, OnPage;
    var parsed := ParsePages(pages);
    match parsed
    case Failure(page) =>
      r := Failure(page);
    case Success(blocks) =>
      var chunks := ChunkBlocks(c, blocks);
      var visible := VisiblePages(pages);
      VisiblePagesAreVisible(pages);
      forall sep | IsSpace(sep)
        ensures var source := Joined(visible, sep); Provenant(chunks, source, |source|, c.chunkSize)
      {
        PageBlocksLocate(visible, sep);
        ChunksProvenant(c, blocks, Joined(visible, sep), |Joined(visible, sep)|);
      }
      forall ch | ch in chunks
        ensures exists i | 0 <= i < |VisiblePages(pages)| :: OnPage(ch, pages, i)
      {
        PdfChunksCarryPages(c, pages, ch);
      }
      r := Success(chunks);
  }
}
