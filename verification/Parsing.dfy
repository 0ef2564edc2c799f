/**
 Parsers: backend/core/parsing/text.py and the page loop of backend/core/parsing/pdf.py.
 Both must report where each block lies, because citations are resolved by offset.
 */
module Parsing {
  import opened Wrappers
  import opened Text

  datatype Kind = Heading | Paragraph | Page

  datatype Block = Block(text: string, page: Option<nat>, charStart: Option<nat>, charEnd: Option<nat>, kind: Kind)

  /** The block says where it is, and it is there. */
  ghost predicate LiesIn(b: Block, source: string) {
    && b.charStart.Some? && b.charEnd.Some?
    && b.charStart.value + |b.text| == b.charEnd.value <= |source|
    && source[b.charStart.value..b.charEnd.value] == b.text
  }

  predicate Covers(b: Block, p: nat) {
    b.charStart.Some? && b.charEnd.Some? && b.charStart.value <= p < b.charEnd.value
  }

  /** Visible blocks that locate themselves, one after another, and between them
      cover whatever is visible before `end`. */
  ghost predicate LocatesUpTo(blocks: seq<Block>, source: string, end: nat) {
    && (forall i | 0 <= i < |blocks| :: LiesIn(blocks[i], source) && !Blank(blocks[i].text) && blocks[i].charEnd.value <= end)
    && (forall i, j | 0 <= i < j < |blocks| :: blocks[i].charEnd.value <= blocks[j].charStart.value)
    && (forall p | 0 <= p < end <= |source| && !IsSpace(source[p]) :: exists i | 0 <= i < |blocks| :: Covers(blocks[i], p))
  }

  ghost predicate Locates(blocks: seq<Block>, source: string) {
    LocatesUpTo(blocks, source, |source|)
  }

  // ----- splitting on blank lines -----

  /** The first position from `i` that is neither a space nor a tab. */
  function SkipBlanks(text: string, i: nat): (j: nat)
    requires i <= |text|
    ensures i <= j <= |text|
    ensures forall p | i <= p < j :: text[p] == ' ' || text[p] == '\t'
    ensures j < |text| ==> text[j] != ' ' && text[j] != '\t'
    decreases |text| - i
  {
    if i < |text| && (text[i] == ' ' || text[i] == '\t') then SkipBlanks(text, i + 1) else i
  }

  /** Where a blank-line separator starting at `i` ends, if one starts there. */
  function SeparatorEnd(text: string, i: nat): (r: Option<nat>)
    requires i <= |text|
    ensures r.Some? ==> i + 1 < r.value <= |text| && Blank(text[i..r.value])
  {
    if i < |text| && text[i] == '\n' then
      var j := SkipBlanks(text, i + 1);
      if j < |text| && text[j] == '\n' then Some(j + 1) else None
    else None
  }

  /** Two line breaks with only spaces and tabs between them. */
  ghost predicate BlankLine(text: string, i: nat, e: nat) {
    && i + 1 < e <= |text| && text[i] == '\n' && text[e - 1] == '\n'
    && forall p | i < p < e - 1 :: text[p] == ' ' || text[p] == '\t'
  }

  /** A separator is exactly such a stretch of the text. */
  lemma SeparatorIsBlankLine(text: string, i: nat, e: nat)
    requires i <= |text|
    ensures SeparatorEnd(text, i) == Some(e) <==> BlankLine(text, i, e)
  {
    if i < |text| && text[i] == '\n' {
      var j := SkipBlanks(text, i + 1);
      if BlankLine(text, i, e) {
        assert j == e - 1;
      }
    }
  }

  /** A piece of the split and where it really is. */
  datatype Span = Span(from: nat, to: nat)

  /** Scanning for separators from `i`, the current piece having begun at `from`. */
  function SpansFrom(text: string, from: nat, i: nat): (r: seq<Span>)
    requires from <= i <= |text|
    ensures |r| > 0
    ensures InBounds(text, r)
    decreases |text| - i
  {
    if i == |text| then [Span(from, i)]
    else
      match SeparatorEnd(text, i)
      case Some(e) => [Span(from, i)] + SpansFrom(text, e, e)
      case None => SpansFrom(text, from, i + 1)
  }

  function Spans(text: string): (r: seq<Span>)
    ensures |r| > 0
    ensures InBounds(text, r)
  {
    SpansFrom(text, 0, 0)
  }

  /** What `re.split` returns: the pieces, without their positions. */
  function Split(text: string): (r: seq<string>)
    ensures |r| == |Spans(text)|
  {
    var spans := Spans(text);
    seq(|spans|, k requires 0 <= k < |spans| => text[spans[k].from..spans[k].to])
  }

  predicate InBounds(text: string, spans: seq<Span>) {
    forall k | 0 <= k < |spans| :: spans[k].from <= spans[k].to <= |text|
  }

  predicate Separated(text: string, spans: seq<Span>, k: nat)
    requires k + 1 < |spans| && InBounds(text, spans)
  {
    SeparatorEnd(text, spans[k].to) == Some(spans[k + 1].from)
  }

  ghost predicate SeparatorFree(text: string, s: Span) {
    forall i | s.from <= i < s.to <= |text| :: SeparatorEnd(text, i) == None
  }

  /** The pieces tile the text, separated by separators, and contain none. */
  ghost predicate Tiles(text: string, spans: seq<Span>, from: nat) {
    && |spans| > 0 && spans[0].from == from && spans[|spans| - 1].to == |text|
    && InBounds(text, spans)
    && (forall k | 0 <= k < |spans| - 1 :: Separated(text, spans, k))
    && (forall k | 0 <= k < |spans| :: SeparatorFree(text, spans[k]))
  }

  lemma {:induction false} SpansTile(text: string, from: nat, i: nat)
    requires from <= i <= |text|
    requires forall p | from <= p < i :: SeparatorEnd(text, p) == None
    ensures Tiles(text, SpansFrom(text, from, i), from)
    decreases |text| - i
  {
    hide SeparatorEnd;
    if i < |text| {
      match SeparatorEnd(text, i)
      case Some(e) =>
        SpansTile(text, e, e);
        TilesCons(text, Span(from, i), SpansFrom(text, e, e), e);
      case None => SpansTile(text, from, i + 1);
    }
  }

  lemma TilesCons(text: string, s: Span, rest: seq<Span>, e: nat)
    requires Tiles(text, rest, e) && s.from <= s.to <= |text| && SeparatorFree(text, s)
    requires SeparatorEnd(text, s.to) == Some(e)
    ensures Tiles(text, [s] + rest, s.from)
  {
    hide SeparatorEnd, SeparatorFree;
    var spans := [s] + rest;
    forall k | 0 <= k < |spans| - 1
      ensures Separated(text, spans, k)
    {
      if k > 0 {
        assert Separated(text, rest, k - 1);
      }
    }
  }

  // ----- blocks -----

  function Hashes(s: string): (n: nat)
    ensures n <= |s|
  {
    if |s| == 0 || s[0] != '#' then 0 else 1 + Hashes(s[1..])
  }

  /** `^#{1,6}\s+\S` matches. */
  predicate IsHeading(s: string) {
    var h := Hashes(s);
    1 <= h <= 6 && 0 < Lead(s[h..]) < |s| - h
  }

  function BlockAt(raw: string, start: nat): Block {
    var stripped := Strip(raw);
    var offset := start + Lead(raw);
    Block(stripped, None, Some(offset), Some(offset + |stripped|), if IsHeading(stripped) then Heading else Paragraph)
  }

  /** The blocks of the text by the true positions of its pieces, with no searching. */
  function BlocksOf(text: string, spans: seq<Span>): seq<Block>
    requires InBounds(text, spans)
  {
    if |spans| == 0 then []
    else
      var last := spans[|spans| - 1];
      var raw := text[last.from..last.to];
      BlocksOf(text, spans[..|spans| - 1]) + Visible(raw, last.from)
  }

  function Visible(raw: string, start: nat): seq<Block> {
    if Strip(raw) == "" then [] else [BlockAt(raw, start)]
  }

  /** Nothing visible between two positions. */
  ghost predicate Gap(text: string, from: int, to: int) {
    0 <= from <= to <= |text| && forall i | from <= i < to :: IsSpace(text[i])
  }

  /** A visible piece does not occur in the white space before it. */
  lemma NoEarlierOccurrence(text: string, s: Span, i: nat)
    requires s.from <= s.to <= |text| && !Blank(text[s.from..s.to])
    requires i <= s.from && Gap(text, i, s.from) && Occurs(text, text[s.from..s.to], i)
    ensures i == s.from
  {
    hide IsSpace;
    var raw := text[s.from..s.to];
    var lead := Lead(raw);
    assert forall p | s.from <= p < s.from + lead :: text[p] == raw[p - s.from];
    assert Gap(text, i, s.from + lead);
    assert text[i + lead] == text[i..i + |raw|][lead];
  }

  /** Searching from a cursor with nothing visible before the piece: a visible piece
      is found where it is, a blank one there or earlier. */
  lemma SearchLands(text: string, s: Span, cursor: nat)
    requires s.from <= s.to <= |text| && Gap(text, cursor, s.from)
    ensures cursor <= Find(text, text[s.from..s.to], cursor) <= s.from
    ensures !Blank(text[s.from..s.to]) ==> Find(text, text[s.from..s.to], cursor) == s.from
  {
    hide IsSpace, Find;
    assert Occurs(text, text[s.from..s.to], s.from);
    var f := Find(text, text[s.from..s.to], cursor);
    if !Blank(text[s.from..s.to]) {
      NoEarlierOccurrence(text, s, f);
    }
  }

  /** Past an underestimated start of a blank piece there is only white space up to
      the next piece. */
  lemma BlankGap(text: string, cursor: nat, found: nat, s: Span, next: nat)
    requires s.from <= s.to && Gap(text, cursor, s.from) && Gap(text, s.to, next)
    requires cursor <= found <= s.from && (found == s.from || Blank(text[s.from..s.to]))
    ensures Gap(text, found + (s.to - s.from), next)
  {
    hide IsSpace;
    if found < s.from {
      assert forall p | s.from <= p < s.to :: text[p] == text[s.from..s.to][p - s.from];
    }
  }

  lemma FirstGap(text: string, spans: seq<Span>)
    requires Tiles(text, spans, 0)
    ensures Gap(text, 0, spans[0].from)
  {
  }

  lemma SeparatorsAreGaps(text: string, spans: seq<Span>, n: nat)
    requires Tiles(text, spans, 0) && n + 1 < |spans|
    ensures Gap(text, spans[n].to, spans[n + 1].from)
  {
    hide IsSpace;
    var i, e := spans[n].to, spans[n + 1].from;
    assert Separated(text, spans, n);
    assert forall p | i <= p < e :: text[p] == text[i..e][p - i];
  }

  lemma OneMorePiece(text: string, spans: seq<Span>, n: nat)
    requires InBounds(text, spans) && n < |spans|
    ensures InBounds(text, spans[..n]) && InBounds(text, spans[..n + 1])
    ensures var raw := text[spans[n].from..spans[n].to];
            BlocksOf(text, spans[..n + 1])
            == BlocksOf(text, spans[..n]) + if Strip(raw) == "" then [] else [BlockAt(raw, spans[n].from)]
  {
    hide BlockAt, Strip;
    assert spans[..n + 1][..n] == spans[..n];
  }

  /** Where the search for a piece ends, up to the next piece. */
  lemma PieceFound(text: string, spans: seq<Span>, n: nat, cursor: nat)
    requires Tiles(text, spans, 0) && InBounds(text, spans) && n < |spans| && Gap(text, cursor, spans[n].from)
    ensures var raw := text[spans[n].from..spans[n].to];
            var start := Find(text, raw, cursor);
            && start >= 0 && (Strip(raw) != "" ==> start == spans[n].from)
            && (n + 1 < |spans| ==> Gap(text, start + |raw|, spans[n + 1].from))
  {
    hide IsSpace, Find, Strip, Tiles, Gap;
    var raw := text[spans[n].from..spans[n].to];
    SearchLands(text, spans[n], cursor);
    StripIsSlice(raw);
    if n + 1 < |spans| {
      SeparatorsAreGaps(text, spans, n);
      BlankGap(text, cursor, Find(text, raw, cursor), spans[n], spans[n + 1].from);
    }
  }

  /** `TextParser.parse` after decoding: offsets recovered by searching for each piece. */
  method ParseText(text: string) returns (blocks: seq<Block>)
    ensures blocks == BlocksOf(text, Spans(text))
  {
    hide BlockAt, Find, Strip, SpansFrom, Gap, Tiles, BlocksOf;
    ghost var spans := Spans(text);
    SpansTile(text, 0, 0);
    FirstGap(text, spans);
    NoBlocks(text);
    var pieces := Split(text);
    blocks := [];
    var cursor := 0;
    for n := 0 to |pieces|
      invariant 0 <= cursor
      invariant n < |spans| ==> Gap(text, cursor, spans[n].from)
      invariant blocks == BlocksOf(text, spans[..n])
    {
      var raw := pieces[n];
      PieceFound(text, spans, n, cursor);
      OneMorePiece(text, spans, n);
      var start := Find(text, raw, cursor);
      if start == -1 {
        start := cursor;
      }
      cursor := start + |raw|;
      if Strip(raw) != "" {
        blocks := blocks + [BlockAt(raw, start)];
      }
    }
    assert spans[..|pieces|] == spans;
  }

  lemma NoBlocks(text: string)
    ensures BlocksOf(text, []) == []
  {
  }

  /** Where the first `n` pieces end. */
  function EndOf(spans: seq<Span>, n: nat): nat
    requires n <= |spans|
  {
    if n == 0 then 0 else spans[n - 1].to
  }

  lemma BlockAtLies(text: string, s: Span)
    requires s.from <= s.to <= |text|
    ensures var b := BlockAt(text[s.from..s.to], s.from);
            && LiesIn(b, text) && s.from <= b.charStart.value && b.charEnd.value <= s.to
            && (b.text == "" <==> Gap(text, s.from, s.to)) && (b.text == "" <==> Blank(b.text))
            && forall p | s.from <= p < s.to && !IsSpace(text[p]) :: Covers(b, p)
  {
    hide IsSpace, Lead, Strip, IsHeading;
    var raw := text[s.from..s.to];
    StripIsSlice(raw);
    assert forall p | s.from <= p < s.to :: text[p] == raw[p - s.from];
    assert forall k | 0 <= k < |raw| :: raw[k] == text[s.from + k];
    var b := BlockAt(raw, s.from);
    assert b.text == text[b.charStart.value..b.charEnd.value];
  }

  /** White space after the last block changes nothing. */
  lemma LocatesFurther(text: string, blocks: seq<Block>, end: nat, to: nat)
    requires LocatesUpTo(blocks, text, end) && end <= to <= |text| && Gap(text, end, to)
    ensures LocatesUpTo(blocks, text, to)
  {
    hide IsSpace, Blank, LiesIn, Covers;
  }

  lemma LocatesOneBlockMore(text: string, blocks: seq<Block>, end: nat, b: Block, to: nat)
    requires LocatesUpTo(blocks, text, end) && end <= to <= |text| && LiesIn(b, text) && !Blank(b.text)
    requires end <= b.charStart.value && b.charEnd.value <= to
    requires forall p | end <= p < to && !IsSpace(text[p]) :: Covers(b, p)
    ensures LocatesUpTo(blocks + [b], text, to)
  {
    hide IsSpace, Blank, Covers;
    var more := blocks + [b];
    forall p | 0 <= p < to && !IsSpace(text[p])
      ensures exists i | 0 <= i < |more| :: Covers(more[i], p)
    {
      if p < end {
        var i :| 0 <= i < |blocks| && Covers(blocks[i], p);
        assert more[i] == blocks[i];
      } else {
        assert more[|blocks|] == b;
      }
    }
  }

  lemma GapJoin(text: string, a: int, b: int, c: int)
    requires Gap(text, a, b) && Gap(text, b, c)
    ensures Gap(text, a, c)
  {
  }

  lemma LocatesOneMore(text: string, blocks: seq<Block>, end: nat, s: Span)
    requires LocatesUpTo(blocks, text, end) && s.from <= s.to <= |text| && Gap(text, end, s.from)
    ensures LocatesUpTo(blocks + Visible(text[s.from..s.to], s.from), text, s.to)
  {
    hide IsSpace, Lead, Strip, LiesIn, IsHeading, LocatesUpTo, Blank, Covers;
    BlockAtLies(text, s);
    var b := BlockAt(text[s.from..s.to], s.from);
    if b.text == "" {
      GapJoin(text, end, s.from, s.to);
      assert blocks + Visible(text[s.from..s.to], s.from) == blocks;
      LocatesFurther(text, blocks, end, s.to);
    } else {
      LocatesOneBlockMore(text, blocks, end, b, s.to);
    }
  }

  lemma GapBefore(text: string, spans: seq<Span>, n: nat)
    requires Tiles(text, spans, 0) && n < |spans|
    ensures Gap(text, EndOf(spans, n), spans[n].from)
  {
    if n == 0 {
      FirstGap(text, spans);
    } else {
      SeparatorsAreGaps(text, spans, n - 1);
    }
  }

  lemma BlocksOfOneMore(text: string, spans: seq<Span>, n: nat)
    requires InBounds(text, spans)
    requires n < |spans|
    ensures BlocksOf(text, spans[..n + 1])
         == BlocksOf(text, spans[..n]) + Visible(text[spans[n].from..spans[n].to], spans[n].from)
  {
    hide Visible;
    assert spans[..n + 1][..n] == spans[..n];
  }

  ghost predicate PrefixLocated(text: string, spans: seq<Span>, n: nat)
    requires InBounds(text, spans) && n <= |spans|
  {
    LocatesUpTo(BlocksOf(text, spans[..n]), text, EndOf(spans, n))
  }

  lemma LocateStep(text: string, spans: seq<Span>, n: nat)
    requires InBounds(text, spans) && Tiles(text, spans, 0) && n < |spans|
    requires PrefixLocated(text, spans, n)
    ensures PrefixLocated(text, spans, n + 1)
  {
    hide LocatesUpTo, Gap, Visible, Tiles, BlocksOf;
    BlocksOfOneMore(text, spans, n);
    GapBefore(text, spans, n);
    LocatesOneMore(text, BlocksOf(text, spans[..n]), EndOf(spans, n), spans[n]);
  }

  lemma {:induction false} BlocksLocateUpTo(text: string, spans: seq<Span>, n: nat)
    requires InBounds(text, spans) && Tiles(text, spans, 0) && n <= |spans|
    ensures PrefixLocated(text, spans, n)
  {
    if n > 0 {
      hide Tiles, PrefixLocated;
      BlocksLocateUpTo(text, spans, n - 1);
      LocateStep(text, spans, n - 1);
    }
  }

  /** Every block `ParseText` reports is where it says, and nothing visible is lost. */
  lemma TextBlocksLocate(text: string)
    ensures Locates(BlocksOf(text, Spans(text)), text)
  {
    hide Tiles, LocatesUpTo, BlocksOf, SpansFrom;
    var spans := Spans(text);
    SpansTile(text, 0, 0);
    BlocksLocateUpTo(text, spans, |spans|);
    assert spans[..|spans|] == spans;
    LastEnd(text, spans);
  }

  lemma LastEnd(text: string, spans: seq<Span>)
    requires Tiles(text, spans, 0)
    ensures EndOf(spans, |spans|) == |text|
  {
  }

  lemma {:induction false} BlockInPiece(text: string, spans: seq<Span>, b: Block)
    requires InBounds(text, spans) && b in BlocksOf(text, spans)
    ensures exists k | 0 <= k < |spans| ::
      b.charStart.Some? && b.charEnd.Some? && spans[k].from <= b.charStart.value && b.charEnd.value <= spans[k].to
  {
    hide Strip;
    var front, last := spans[..|spans| - 1], spans[|spans| - 1];
    if b in BlocksOf(text, front) {
      BlockInPiece(text, front, b);
    } else {
      BlockAtLies(text, last);
    }
  }

  /** No two line breaks with only spaces and tabs between them begin inside a block. */
  lemma NoBlankLineInside(text: string, b: Block, i: nat, e: nat)
    requires b in BlocksOf(text, Spans(text)) && Covers(b, i)
    ensures i < |text| && !BlankLine(text, i, e)
  {
    hide BlocksOf, Spans, BlankLine;
    var spans := Spans(text);
    BlockInPiece(text, spans, b);
    var k :| 0 <= k < |spans| && spans[k].from <= b.charStart.value && b.charEnd.value <= spans[k].to;
    SplitAtBlankLines(text, k);
  }

  /** The split in characters: the pieces run from the first character to the last,
      from each to the next there is one blank line, and none begins inside a piece. */
  lemma SplitAtBlankLines(text: string, k: nat)
    requires k < |Spans(text)|
    ensures var spans := Spans(text);
            && spans[k].from <= spans[k].to <= |text|
            && (k == 0 ==> spans[k].from == 0) && (k == |spans| - 1 ==> spans[k].to == |text|)
            && (k + 1 < |spans| ==> BlankLine(text, spans[k].to, spans[k + 1].from))
            && forall i, e | spans[k].from <= i < spans[k].to :: !BlankLine(text, i, e)
  {
    hide SpansFrom, SeparatorEnd, BlankLine;
    var spans := Spans(text);
    SpansTile(text, 0, 0);
    if k + 1 < |spans| {
      assert Separated(text, spans, k);
      SeparatorIsBlankLine(text, spans[k].to, spans[k + 1].from);
    }
    forall i, e | spans[k].from <= i < spans[k].to
      ensures !BlankLine(text, i, e)
    {
      assert SeparatorFree(text, spans[k]);
      if BlankLine(text, i, e) {
        SeparatorStartsInText(text, i, e);
      }
      SeparatorIsBlankLine(text, i, e);
    }
  }

  lemma SeparatorStartsInText(text: string, i: nat, e: nat)
    requires BlankLine(text, i, e)
    ensures i < e <= |text|
  {
  }

  /** A block is a heading exactly when it starts with one to six hashes, white space,
      and something visible. */
  lemma HeadingIff(s: string)
    ensures IsHeading(s) <==> exists h, j | 1 <= h <= 6 && h < j < |s| :: OpensHeading(s, h, j)
  {
    hide IsSpace;
    HashesAre(s);
    if IsHeading(s) {
      var h := Hashes(s);
      var j := h + Lead(s[h..]);
      assert forall p | h <= p < j :: s[p] == s[h..][p - h];
      assert s[j] == s[h..][j - h];
      assert OpensHeading(s, h, j);
    }
    if h, j :| 1 <= h <= 6 && h < j < |s| && OpensHeading(s, h, j) {
      HashIsVisible();
      assert IsSpace(s[h]);
      assert Hashes(s) == h;
      assert s[h..][0] == s[h] && s[h..][j - h] == s[j];
    }
  }

  ghost predicate OpensHeading(s: string, h: nat, j: nat)
    requires h < j < |s|
  {
    (forall p | 0 <= p < h :: s[p] == '#') && (forall p | h <= p < j :: IsSpace(s[p])) && !IsSpace(s[j])
  }

  lemma {:induction false} HashesAre(s: string)
    ensures forall p | 0 <= p < Hashes(s) :: s[p] == '#'
    ensures Hashes(s) < |s| ==> s[Hashes(s)] != '#'
  {
    if |s| > 0 && s[0] == '#' {
      HashesAre(s[1..]);
    }
  }

  lemma HashIsVisible()
    ensures !IsSpace('#')
  {
  }

  /** What a block of a text is, but for its place. */
  lemma {:induction false} BlockKind(text: string, spans: seq<Span>, b: Block)
    requires InBounds(text, spans) && b in BlocksOf(text, spans)
    ensures b.page == None && b.kind == if IsHeading(b.text) then Heading else Paragraph
  {
    hide Strip, IsHeading, Lead;
    var front, last := spans[..|spans| - 1], spans[|spans| - 1];
    if b in BlocksOf(text, front) {
      BlockKind(text, front, b);
    }
  }

  // ----- pages -----

  /** What the PDF library makes of one page. */
  datatype PageText = Unreadable | Extracted(text: string)

  datatype VisiblePage = VisiblePage(number: nat, text: string)

  /** The pages with any text, numbered from one, stripped. */
  function VisiblePages(pages: seq<PageText>): seq<VisiblePage> {
    if |pages| == 0 then []
    else
      var last := pages[|pages| - 1];
      VisiblePages(pages[..|pages| - 1])
      + if last.Extracted? && Strip(last.text) != "" then [VisiblePage(|pages|, Strip(last.text))] else []
  }

  /** The document a reader sees: visible pages, one character between them. */
  function Joined(pages: seq<VisiblePage>, sep: char): string {
    if |pages| == 0 then ""
    else if |pages| == 1 then pages[0].text
    else Joined(pages[..|pages| - 1], sep) + [sep] + pages[|pages| - 1].text
  }

  /** Where the next page would start. */
  function NextOffset(pages: seq<VisiblePage>): nat {
    if |pages| == 0 then 0 else NextOffset(pages[..|pages| - 1]) + |pages[|pages| - 1].text| + 1
  }

  function PageBlock(page: VisiblePage, offset: nat): Block {
    Block(page.text, Some(page.number), Some(offset), Some(offset + |page.text|), Page)
  }

  function PageBlocks(pages: seq<VisiblePage>): seq<Block> {
    if |pages| == 0 then []
    else PageBlocks(pages[..|pages| - 1]) + [PageBlock(pages[|pages| - 1], NextOffset(pages[..|pages| - 1]))]
  }

  lemma OneMorePage(pages: seq<PageText>, n: nat)
    requires n < |pages|
    ensures var before, now := VisiblePages(pages[..n]), VisiblePages(pages[..n + 1]);
            if pages[n].Extracted? && Strip(pages[n].text) != "" then
              var v := VisiblePage(n + 1, Strip(pages[n].text));
              && PageBlocks(now) == PageBlocks(before) + [PageBlock(v, NextOffset(before))]
              && NextOffset(now) == NextOffset(before) + |v.text| + 1
            else
              now == before
  {
    hide Strip;
    var before := VisiblePages(pages[..n]);
    assert pages[..n + 1][..n] == pages[..n];
    if pages[n].Extracted? && Strip(pages[n].text) != "" {
      assert (before + [VisiblePage(n + 1, Strip(pages[n].text))])[..|before|] == before;
    }
  }

  /** The page loop of `PdfParser.parse`; a page that cannot be read fails the document. */
  method ParsePages(pages: seq<PageText>) returns (r: Result<seq<Block>, nat>)
    ensures r.Success? <==> Unreadable !in pages
    ensures r.Failure? ==> 1 <= r.error <= |pages| && pages[r.error - 1] == Unreadable && Unreadable !in pages[..r.error - 1]
    ensures r.Success? ==> r.value == PageBlocks(VisiblePages(pages))
  {
    hide Strip, VisiblePages, PageBlocks, NextOffset;
    var blocks: seq<Block> := [];
    var offset := 0;
    NoPages();
    for n := 0 to |pages|
      invariant Unreadable !in pages[..n]
      invariant blocks == PageBlocks(VisiblePages(pages[..n]))
      invariant offset == NextOffset(VisiblePages(pages[..n]))
    {
      OneMorePage(pages, n);
      match pages[n]
      case Unreadable =>
        return Failure(n + 1);
      case Extracted(raw) =>
        var text := Strip(raw);
        if text != "" {
          blocks := blocks + [Block(text, Some(n + 1), Some(offset), Some(offset + |text|), Page)];
          offset := offset + |text| + 1;
        }
    }
    assert pages[..|pages|] == pages;
    r := Success(blocks);
  }

  lemma NoPages()
    ensures VisiblePages([]) == [] && PageBlocks([]) == [] && NextOffset([]) == 0
  {
  }

  ghost predicate AllVisible(pages: seq<VisiblePage>) {
    forall i | 0 <= i < |pages| :: !Blank(pages[i].text)
  }

  lemma {:induction false} VisiblePagesAreVisible(pages: seq<PageText>)
    ensures AllVisible(VisiblePages(pages))
  {
    hide IsSpace, Strip;
    if |pages| > 0 {
      VisiblePagesAreVisible(pages[..|pages| - 1]);
      var last := pages[|pages| - 1];
      if last.Extracted? {
        StripIsSlice(last.text);
      }
    }
  }

  /** A visible page is the page of its number, stripped. */
  lemma {:induction false} VisiblePageIs(pages: seq<PageText>, i: nat)
    requires i < |VisiblePages(pages)|
    ensures var v := VisiblePages(pages)[i];
            1 <= v.number <= |pages| && pages[v.number - 1].Extracted? && v.text == Strip(pages[v.number - 1].text)
  {
    hide Strip;
    var n := |pages| - 1;
    if i < |VisiblePages(pages[..n])| {
      VisiblePageIs(pages[..n], i);
    }
  }

  lemma {:induction false} PageBlockIs(pages: seq<VisiblePage>, b: Block)
    requires b in PageBlocks(pages)
    ensures exists i | 0 <= i < |pages| :: IsPageBlock(pages, b, i)
  {
    var n := |pages| - 1;
    if b in PageBlocks(pages[..n]) {
      PageBlockIs(pages[..n], b);
      var i :| 0 <= i < n && IsPageBlock(pages[..n], b, i);
      assert pages[..n][..i] == pages[..i];
      assert IsPageBlock(pages, b, i);
    } else {
      assert IsPageBlock(pages, b, n);
    }
  }

  predicate IsPageBlock(pages: seq<VisiblePage>, b: Block, i: nat)
    requires i < |pages|
  {
    b.text == pages[i].text && b.page == Some(pages[i].number) && b.charStart == Some(NextOffset(pages[..i])) && b.kind == Page
  }

  /** Every page block is where it says in the joined text, and nothing visible is lost. */
  lemma {:induction false} PageBlocksLocate(pages: seq<VisiblePage>, sep: char)
    requires AllVisible(pages) && IsSpace(sep)
    ensures |Joined(pages, sep)| == if |pages| == 0 then 0 else NextOffset(pages) - 1
    ensures Locates(PageBlocks(pages), Joined(pages, sep))
  {
    hide IsSpace, Blank;
    if |pages| > 0 {
      var front, last := pages[..|pages| - 1], pages[|pages| - 1];
      PageBlocksLocate(front, sep);
      var before := if |front| == 0 then "" else Joined(front, sep) + [sep];
      assert Joined(pages, sep) == before + last.text && |before| == NextOffset(front);
      LocatesAppended(PageBlocks(front), Joined(front, sep), before, PageBlock(last, NextOffset(front)));
    }
  }

  lemma LocatesAppended(blocks: seq<Block>, source: string, before: string, b: Block)
    requires Locates(blocks, source) && source <= before && Gap(before, |source|, |before|)
    requires b.charStart == Some(|before|) && b.charEnd == Some(|before| + |b.text|) && !Blank(b.text)
    ensures Locates(blocks + [b], before + b.text)
  {
    hide IsSpace, Blank;
    var all, text := blocks + [b], before + b.text;
    assert forall i | 0 <= i < |source| :: source[i] == before[i] == text[i];
    forall i | 0 <= i < |all|
      ensures LiesIn(all[i], text)
    {
      if i < |blocks| {
        var c := blocks[i];
        assert LiesIn(c, source);
        assert text[c.charStart.value..c.charEnd.value] == source[c.charStart.value..c.charEnd.value];
      }
    }
    forall p | 0 <= p < |text| && !IsSpace(text[p])
      ensures exists i | 0 <= i < |all| :: Covers(all[i], p)
    {
      if p < |source| {
        var i :| 0 <= i < |blocks| && Covers(blocks[i], p);
        assert all[i] == blocks[i];
      } else {
        assert p >= |before|;
        assert all[|blocks|] == b;
      }
    }
  }
}
