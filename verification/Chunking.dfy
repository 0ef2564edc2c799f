/**
 The recursive character chunker, backend/core/chunking/recursive.py: a window
 slides over a block, ends where the widest separator last ends inside it, and
 steps back by the overlap.
 */
module Chunking {
  import opened Wrappers
  import opened Text
  import opened Parsing

  datatype Settings = Settings(chunkSize: int, overlap: int) {
    predicate Valid() {
      0 < chunkSize && 0 <= overlap < chunkSize
    }

    /** A separator up to here would leave the chunk mostly empty. */
    function Early(): int {
      chunkSize / 4
    }

    /** The least a window advances, however its end is chosen. */
    function Advance(): int {
      var shortest := if Early() + 2 < chunkSize then Early() + 2 else chunkSize;
      if shortest - overlap > 1 then shortest - overlap else 1
    }
  }

  /** The constructor's validation. */
  function MakeSettings(chunkSize: int, overlap: int): (r: Result<Settings, string>)
    ensures r.Success? <==> Settings(chunkSize, overlap).Valid()
    ensures r.Success? ==> r.value == Settings(chunkSize, overlap)
  {
    if chunkSize <= 0 then Failure("chunk_size must be positive")
    else if !(0 <= overlap < chunkSize) then Failure("overlap must be non-negative and smaller than chunk_size")
    else Success(Settings(chunkSize, overlap))
  }

  // ----- boundaries -----

  /** Paragraph, line, sentence, word: widest first. */
  datatype Separator = Paragraphs | Lines | Sentences | Words {
    function Text(): string {
      match this
      case Paragraphs => "\n\n"
      case Lines => "\n"
      case Sentences => ". "
      case Words => " "
    }

    function Rank(): nat {
      match this
      case Paragraphs => 0
      case Lines => 1
      case Sentences => 2
      case Words => 3
    }
  }

  function After(s: Separator): Option<Separator> {
    match s
    case Paragraphs => Some(Lines)
    case Lines => Some(Sentences)
    case Sentences => Some(Words)
    case Words => None
  }

  /** `_boundary`, trying `s` and then every narrower separator. */
  function BoundaryFrom(c: Settings, text: string, start: nat, end: nat, s: Separator): int
    requires start <= end <= |text|
    decreases 4 - s.Rank()
  {
    var index := RFind(text[start..end], s.Text());
    if index > c.Early() then start + index + |s.Text()|
    else if After(s).Some? then BoundaryFrom(c, text, start, end, After(s).value)
    else end
  }

  function Boundary(c: Settings, text: string, start: nat, end: nat): int
    requires start <= end <= |text|
  {
    BoundaryFrom(c, text, start, end, Paragraphs)
  }

  /** `s` occurs at `p`, inside the window and not too early in it. */
  predicate Usable(c: Settings, text: string, start: nat, end: nat, s: Separator, p: int) {
    start + c.Early() < p && p + |s.Text()| <= end <= |text| && Occurs(text, s.Text(), p)
  }

  /** The cut is after the last usable occurrence of the widest separator that has one. */
  ghost predicate CutsAt(c: Settings, text: string, start: nat, end: nat, s: Separator, p: int) {
    && Usable(c, text, start, end, s, p)
    && (forall q | Usable(c, text, start, end, s, q) :: q <= p)
    && (forall w: Separator, q | w.Rank() < s.Rank() :: !Usable(c, text, start, end, w, q))
  }

  ghost predicate NothingUsable(c: Settings, text: string, start: nat, end: nat) {
    forall w: Separator, q :: !Usable(c, text, start, end, w, q)
  }

  /** After the last usable occurrence of the widest separator that has one; the
      whole window if there is none. */
  ghost predicate IsBoundary(c: Settings, text: string, start: nat, end: nat, r: int) {
    || (NothingUsable(c, text, start, end) && r == end)
    || exists s: Separator, p :: CutsAt(c, text, start, end, s, p) && r == p + |s.Text()|
  }

  lemma OccursInWindow(text: string, start: nat, end: nat, sub: string, p: int)
    requires start <= end <= |text|
    ensures start <= p && p + |sub| <= end && Occurs(text, sub, p) <==> Occurs(text[start..end], sub, p - start)
  {
    if start <= p && p + |sub| <= end {
      var window := text[start..end];
      assert forall k | p <= k < p + |sub| :: window[k - start] == text[k];
      assert window[p - start..p - start + |sub|] == text[p..p + |sub|];
    }
  }

  lemma {:induction false} BoundaryFromMeaning(c: Settings, text: string, start: nat, end: nat, s: Separator)
    requires c.Valid() && start <= end <= |text|
    requires forall w: Separator, q | w.Rank() < s.Rank() :: !Usable(c, text, start, end, w, q)
    ensures var r := BoundaryFrom(c, text, start, end, s);
            IsBoundary(c, text, start, end, r)
    decreases 4 - s.Rank()
  {
    hide Occurs;
    var index := RFind(text[start..end], s.Text());
    OccursInWindow(text, start, end, s.Text(), start + index);
    forall q | Usable(c, text, start, end, s, q)
      ensures q - start <= index
    {
      OccursInWindow(text, start, end, s.Text(), q);
    }
    if index > c.Early() {
      assert CutsAt(c, text, start, end, s, start + index);
    } else {
      assert forall w: Separator, q | w.Rank() <= s.Rank() :: !Usable(c, text, start, end, w, q) by {
        assert forall w: Separator | w.Rank() == s.Rank() :: w == s;
      }
      if After(s).Some? {
        BoundaryFromMeaning(c, text, start, end, After(s).value);
      }
    }
  }

  /** What `_boundary` finds. */
  lemma BoundaryMeaning(c: Settings, text: string, start: nat, end: nat)
    requires c.Valid() && start <= end <= |text|
    ensures var r := Boundary(c, text, start, end);
            IsBoundary(c, text, start, end, r)
  {
    BoundaryFromMeaning(c, text, start, end, Paragraphs);
  }

  /** A separator in characters. */
  predicate ReadsAs(text: string, p: nat, s: Separator) {
    match s
    case Paragraphs => p + 1 < |text| && text[p] == '\n' && text[p + 1] == '\n'
    case Lines => p < |text| && text[p] == '\n'
    case Sentences => p + 1 < |text| && text[p] == '.' && text[p + 1] == ' '
    case Words => p < |text| && text[p] == ' '
  }

  function Width(s: Separator): nat {
    match s
    case Paragraphs => 2
    case Lines => 1
    case Sentences => 2
    case Words => 1
  }

  /** Where a separator may be cut after: it fits in the window and lies beyond the
      window's first quarter. */
  predicate CanCut(c: Settings, text: string, start: nat, end: nat, s: Separator, p: nat) {
    p - start > c.chunkSize / 4 && p + Width(s) <= end && ReadsAs(text, p, s)
  }

  lemma UsableInCharacters(c: Settings, text: string, start: nat, end: nat, s: Separator, p: nat)
    requires c.Valid() && end <= |text|
    ensures Usable(c, text, start, end, s, p) <==> CanCut(c, text, start, end, s, p)
    ensures |s.Text()| == Width(s)
  {
    if p + Width(s) <= end {
      var found := text[p..p + Width(s)];
      assert found[0] == text[p];
      assert Width(s) == 2 ==> found[1] == text[p + 1];
      assert ReadsAs(text, p, s) <==> found == s.Text();
    }
  }

  /** The boundary in characters: after the last blank line that can be cut after, or
      else the last line break, or else the last sentence end, or else the last space;
      or else at the end of the window. */
  lemma BoundaryInCharacters(c: Settings, text: string, start: nat, end: nat)
    requires c.Valid() && start <= end <= |text|
    ensures var r := Boundary(c, text, start, end);
            || (r == end && forall s: Separator, p: nat :: !CanCut(c, text, start, end, s, p))
            || exists s: Separator, p: nat ::
                 && CanCut(c, text, start, end, s, p) && r == p + Width(s)
                 && (forall q: nat | q > p :: !CanCut(c, text, start, end, s, q))
                 && forall w: Separator, q: nat | Wider(w, s) :: !CanCut(c, text, start, end, w, q)
  {
    hide Usable, CanCut;
    BoundaryMeaning(c, text, start, end);
    forall s: Separator, p: nat
      ensures Usable(c, text, start, end, s, p) <==> CanCut(c, text, start, end, s, p)
      ensures |s.Text()| == Width(s)
    {
      UsableInCharacters(c, text, start, end, s, p);
    }
    var r := Boundary(c, text, start, end);
    if s: Separator, p :| CutsAt(c, text, start, end, s, p) && r == p + |s.Text()| {
      UsablePast(c, text, start, end, s, p);
      var at: nat := p;
      assert CanCut(c, text, start, end, s, at);
    }
  }

  /** Paragraphs before lines, lines before sentences, sentences before words. */
  predicate Wider(w: Separator, s: Separator) {
    match s
    case Paragraphs => false
    case Lines => w == Paragraphs
    case Sentences => w == Paragraphs || w == Lines
    case Words => w != Words
  }

  // ----- windows -----

  datatype Window = Window(from: nat, to: nat)

  function Min(a: int, b: int): int {
    if a < b then a else b
  }

  function Max(a: int, b: int): int {
    if a < b then b else a
  }

  /** Where the window that starts at `cursor` ends. */
  function WindowEnd(c: Settings, text: string, cursor: nat): (end: nat)
    requires c.Valid() && cursor < |text|
    ensures cursor < end <= |text| && end <= cursor + c.chunkSize
    ensures end < |text| ==> end >= cursor + Min(c.Early() + 2, c.chunkSize)
  {
    var end := Min(cursor + c.chunkSize, |text|);
    if end < |text| then
      BoundaryMeaning(c, text, cursor, end);
      Boundary(c, text, cursor, end)
    else end
  }

  function NextCursor(c: Settings, cursor: nat, end: nat): (next: nat) {
    Max(cursor + 1, end - c.overlap)
  }

  /** Every raw window from `cursor` on, visible or not. */
  function Windows(c: Settings, text: string, cursor: nat): (r: seq<Window>)
    requires c.Valid() && cursor < |text|
    ensures |r| > 0 && r[0].from == cursor && r[0].to == WindowEnd(c, text, cursor)
    decreases |text| - cursor
  {
    var end := WindowEnd(c, text, cursor);
    [Window(cursor, end)]
    + if end >= |text| then [] else Windows(c, text, NextCursor(c, cursor, end))
  }

  function WindowsFrom(c: Settings, text: string, cursor: nat): seq<Window>
    requires c.Valid()
  {
    if cursor < |text| then Windows(c, text, cursor) else []
  }

  function AllWindows(c: Settings, text: string): seq<Window>
    requires c.Valid()
  {
    WindowsFrom(c, text, 0)
  }

  lemma UnfoldWindows(c: Settings, text: string, cursor: nat)
    requires c.Valid() && cursor < |text|
    ensures var end := WindowEnd(c, text, cursor);
            Windows(c, text, cursor)
            == [Window(cursor, end)] + if end >= |text| then [] else WindowsFrom(c, text, NextCursor(c, cursor, end))
  {
  }

  ghost predicate Stepping(c: Settings, text: string, ws: seq<Window>) {
    && (forall i | 0 <= i < |ws| :: ws[i].from < ws[i].to <= |text| && ws[i].to <= ws[i].from + c.chunkSize)
    && (forall i | 0 < i < |ws| :: Steps(c, text, ws[i - 1], ws[i]))
  }

  /** One window to the next: it starts inside or at the end of the one before and
      reaches no less far. */
  predicate Steps(c: Settings, text: string, v: Window, w: Window) {
    && v.to < |text| && w.from == NextCursor(c, v.from, v.to)
    && v.from + c.Advance() <= w.from <= v.to <= w.to
  }

  /** What is usable in a later window and ends within an earlier one was usable there too. */
  lemma UsableBefore(c: Settings, text: string, start: nat, end: nat, start': nat, end': nat, s: Separator, p: int)
    requires start <= start' && end <= |text|
    requires Usable(c, text, start', end', s, p) && p + |s.Text()| <= end
    ensures Usable(c, text, start, end, s, p)
  {
  }

  lemma BoundaryNeverDecreases(c: Settings, text: string, start: nat, end: nat, r: int, start': nat, end': nat, r': int)
    requires start <= start' <= r && r <= end <= end' <= |text|
    requires IsBoundary(c, text, start, end, r) && IsBoundary(c, text, start', end', r')
    ensures r <= r'
  {
    hide Usable;
    if s', p' :| CutsAt(c, text, start', end', s', p') && r' == p' + |s'.Text()| {
      if r' <= end {
        UsableBefore(c, text, start, end, start', end', s', p');
        var s, p :| CutsAt(c, text, start, end, s, p) && r == p + |s.Text()|;
        assert Usable(c, text, start, end, s, p);
        if p > start' + c.Early() {
          UsableLater(c, text, start, end, start', end', s, p);
          assert s'.Rank() == s.Rank();
        } else {
          UsablePast(c, text, start', end', s', p');
        }
      }
    }
  }

  lemma UsableLater(c: Settings, text: string, start: nat, end: nat, start': nat, end': nat, s: Separator, p: int)
    requires Usable(c, text, start, end, s, p) && p > start' + c.Early() && end <= end' <= |text|
    ensures Usable(c, text, start', end', s, p)
  {
  }

  lemma UsablePast(c: Settings, text: string, start: nat, end: nat, s: Separator, p: int)
    requires Usable(c, text, start, end, s, p)
    ensures p > start + c.Early()
  {
  }

  /** Sliding the window on never moves its end back, even when the step is one
      character and the same separator is found again. */
  lemma EndsNeverDecrease(c: Settings, text: string, cursor: nat)
    requires c.Valid() && cursor < |text| && WindowEnd(c, text, cursor) < |text|
    ensures var end := WindowEnd(c, text, cursor);
            end <= WindowEnd(c, text, NextCursor(c, cursor, end))
  {
    hide IsBoundary, BoundaryFrom;
    var end := WindowEnd(c, text, cursor);
    var next := NextCursor(c, cursor, end);
    var hi, hi' := cursor + c.chunkSize, Min(next + c.chunkSize, |text|);
    if hi' < |text| {
      BoundaryMeaning(c, text, cursor, hi);
      BoundaryMeaning(c, text, next, hi');
      BoundaryNeverDecreases(c, text, cursor, hi, end, next, hi', WindowEnd(c, text, next));
    }
  }

  lemma {:induction false} WindowsStep(c: Settings, text: string, cursor: nat)
    requires c.Valid() && cursor < |text|
    ensures Stepping(c, text, Windows(c, text, cursor))
    ensures var ws := Windows(c, text, cursor); ws[|ws| - 1].to == |text|
    decreases |text| - cursor
  {
    hide WindowEnd;
    var end := WindowEnd(c, text, cursor);
    if end < |text| {
      var next := NextCursor(c, cursor, end);
      EndsNeverDecrease(c, text, cursor);
      WindowsStep(c, text, next);
      var rest := Windows(c, text, next);
      assert Steps(c, text, Window(cursor, end), rest[0]);
    }
  }

  /** Every position is inside some window. */
  lemma {:induction false} WindowsCover(c: Settings, text: string, cursor: nat, p: nat)
    requires c.Valid() && cursor <= p < |text|
    ensures exists w | w in Windows(c, text, cursor) :: w.from <= p < w.to
    decreases |text| - cursor
  {
    hide WindowEnd;
    var end := WindowEnd(c, text, cursor);
    var ws := Windows(c, text, cursor);
    assert ws[0] == Window(cursor, end);
    if p >= end {
      var next := NextCursor(c, cursor, end);
      WindowsCover(c, text, next, p);
      var w :| w in Windows(c, text, next) && w.from <= p < w.to;
      assert w in ws;
    }
  }

  /** How many windows there can be. */
  lemma {:induction false} WindowCount(c: Settings, text: string, cursor: nat)
    requires c.Valid() && cursor < |text|
    ensures (|Windows(c, text, cursor)| - 1) * c.Advance() <= |text| - 1 - cursor
    decreases |text| - cursor
  {
    hide WindowEnd;
    var end := WindowEnd(c, text, cursor);
    if end < |text| {
      var next := NextCursor(c, cursor, end);
      WindowCount(c, text, next);
      var n := |Windows(c, text, next)|;
      assert n * c.Advance() == (n - 1) * c.Advance() + c.Advance();
    }
  }

  /** For the defaults, 1200 and 150, one window for every 152 characters at most. */
  lemma WindowsAreFew(c: Settings, text: string)
    requires c.Valid() && |text| > 0
    ensures |AllWindows(c, text)| <= 1 + (|text| - 1) / Max(1, Min(c.chunkSize / 4 + 2, c.chunkSize) - c.overlap)
  {
    hide Windows;
    var n := |AllWindows(c, text)| - 1;
    if n > (|text| - 1) / c.Advance() {
      BeyondQuotient(n, c.Advance(), |text| - 1);
    }
    WindowCount(c, text, 0);
  }

  lemma BeyondQuotient(n: int, a: int, total: int)
    requires a > 0 && n > total / a
    ensures n * a > total
  {
    var q := total / a;
    SplitProduct(n, q, a);
    assert total == q * a + total % a;
  }

  lemma SplitProduct(n: int, q: int, a: int)
    requires n > q && a > 0
    ensures n * a >= q * a + a
  {
    assert n * a == q * a + a + (n - q - 1) * a;
    assert (n - q - 1) * a >= 0;
  }

  // ----- exact overlap -----

  /** Each window starts exactly the overlap before the previous end, and ends later. */
  ghost predicate Exact(c: Settings, ws: seq<Window>) {
    forall i | 0 < i < |ws| :: ExactStep(c, ws[i - 1], ws[i])
  }

  predicate ExactStep(c: Settings, v: Window, w: Window) {
    w.from == v.to - c.overlap && v.to < w.to
  }

  lemma {:induction false} WindowsExact(c: Settings, text: string, cursor: nat)
    requires c.Valid() && cursor < |text| && c.overlap <= c.Early() + 1
    ensures Exact(c, Windows(c, text, cursor))
    decreases |text| - cursor
  {
    hide WindowEnd;
    var end := WindowEnd(c, text, cursor);
    if end < |text| {
      var next := NextCursor(c, cursor, end);
      WindowsExact(c, text, next);
      assert ExactStep(c, Window(cursor, end), Windows(c, text, next)[0]);
    }
  }

  /** One early word break, and the step back would not get past the window's start. */
  function Stubborn(c: Settings): string
    requires c.Valid()
  {
    seq(c.Early() + 1, _ => 'x') + [' '] + seq(c.chunkSize, _ => 'x')
  }

  lemma StubbornIsInexact(c: Settings)
    requires c.Valid() && c.overlap > c.Early() + 1
    ensures |AllWindows(c, Stubborn(c))| > 1 && !Exact(c, AllWindows(c, Stubborn(c)))
  {
    var text := Stubborn(c);
    var at := c.Early() + 1;
    var hi := c.chunkSize;
    forall w: Separator, q | Usable(c, text, 0, hi, w, q)
      ensures w == Words && q == at
    {
      assert text[q..q + |w.Text()|][0] == w.Text()[0];
      assert text[q..q + |w.Text()|][|w.Text()| - 1] == w.Text()[|w.Text()| - 1];
    }
    assert text[at..at + 1] == " ";
    assert Usable(c, text, 0, hi, Words, at);
    BoundaryMeaning(c, text, 0, hi);
    assert WindowEnd(c, text, 0) == at + 1;
    assert NextCursor(c, 0, at + 1) == 1;
    var ws := Windows(c, text, 0);
    assert ws[0].to == at + 1 && ws[1].from == 1;
    assert !ExactStep(c, ws[0], ws[1]);
  }

  /** The overlap is exact on every text if and only if it is small enough. */
  lemma OverlapIsExactIff(c: Settings)
    requires c.Valid()
    ensures (forall text: string :: Exact(c, AllWindows(c, text))) <==> c.overlap <= c.Early() + 1
  {
    if c.overlap <= c.Early() + 1 {
      forall text: string
        ensures Exact(c, AllWindows(c, text))
      {
        if |text| > 0 {
          WindowsExact(c, text, 0);
        }
      }
    } else {
      StubbornIsInexact(c);
    }
  }

  // ----- whole words -----

  /** A character that separates words, for the chunker. */
  predicate Breaks(ch: char) {
    ch == ' ' || ch == '\n'
  }

  predicate Unbroken(text: string, i: nat, j: nat)
    requires i <= j <= |text|
  {
    forall p | i <= p < j :: !Breaks(text[p])
  }

  /** No word is longer than `m`. */
  ghost predicate WordsUpTo(text: string, m: nat) {
    forall i, j | 0 <= i <= j <= |text| && Unbroken(text, i, j) :: j - i <= m
  }

  /** Cutting at `e` leaves part of one word on either side. */
  predicate InsideWord(text: string, e: nat) {
    0 < e < |text| && !Breaks(text[e - 1]) && !Breaks(text[e])
  }

  ghost predicate KeepsWords(text: string, ws: seq<Window>) {
    forall w | w in ws :: !InsideWord(text, w.to)
  }

  lemma SeparatorsBreak(c: Settings, text: string, start: nat, end: nat, s: Separator, p: int)
    requires Usable(c, text, start, end, s, p) && c.Valid()
    ensures start + c.Early() < p + |s.Text()| - 1 < end <= |text| && Breaks(text[p + |s.Text()| - 1])
  {
    assert text[p..p + |s.Text()|][|s.Text()| - 1] == s.Text()[|s.Text()| - 1];
  }

  /** A break that is not too early in the window can be cut after. */
  lemma BreakIsUsable(c: Settings, text: string, start: nat, end: nat, p: nat)
    requires start + c.Early() < p < end <= |text| && Breaks(text[p])
    ensures !NothingUsable(c, text, start, end)
  {
    var s := if text[p] == ' ' then Words else Lines;
    assert text[p..p + 1] == s.Text();
    assert Usable(c, text, start, end, s, p);
  }

  /** A window that ends inside a word has only that word after its first quarter. */
  lemma CutWordIsLong(c: Settings, text: string, cursor: nat)
    requires c.Valid() && c.chunkSize >= 2 && cursor < |text| && InsideWord(text, WindowEnd(c, text, cursor))
    ensures cursor + c.chunkSize < |text| && Unbroken(text, cursor + c.Early() + 1, cursor + c.chunkSize + 1)
  {
    hide IsBoundary, NothingUsable, CutsAt, BoundaryFrom, Usable;
    var end := cursor + c.chunkSize;
    BoundaryMeaning(c, text, cursor, end);
    var r := WindowEnd(c, text, cursor);
    CutMeansNothingUsable(c, text, cursor, end, r);
    forall p | cursor + c.Early() + 1 <= p < end + 1
      ensures !Breaks(text[p])
    {
      if p < end && Breaks(text[p]) {
        BreakIsUsable(c, text, cursor, end, p);
      }
    }
  }

  lemma CutMeansNothingUsable(c: Settings, text: string, start: nat, end: nat, r: int)
    requires c.Valid() && start < end <= |text| && 0 <= r && IsBoundary(c, text, start, end, r) && InsideWord(text, r)
    ensures NothingUsable(c, text, start, end) && r == end
  {
    hide Usable, NothingUsable, Breaks;
    if s, p :| CutsAt(c, text, start, end, s, p) && r == p + |s.Text()| {
      SeparatorsBreak(c, text, start, end, s, p);
    }
  }

  /** The longest words that are never cut: what the window has after its first quarter,
      less the break before the word; a word of one character cannot be cut at all. */
  function LongestKept(c: Settings): nat
    requires c.Valid()
  {
    if c.chunkSize == 1 then 1 else c.chunkSize - c.Early() - 1
  }

  lemma {:induction false} ShortWordsAreKept(c: Settings, text: string, cursor: nat, m: nat)
    requires c.Valid() && cursor < |text| && WordsUpTo(text, m) && m <= LongestKept(c)
    ensures KeepsWords(text, Windows(c, text, cursor))
    decreases |text| - cursor
  {
    hide WindowEnd;
    var end := WindowEnd(c, text, cursor);
    if InsideWord(text, end) {
      assert Unbroken(text, end - 1, end + 1);
      if c.chunkSize >= 2 {
        CutWordIsLong(c, text, cursor);
      }
    }
    if end < |text| {
      ShortWordsAreKept(c, text, NextCursor(c, cursor, end), m);
    }
  }

  /** A word in the first quarter, then one that the rest of the window cannot hold. */
  function TwoWords(c: Settings): string
    requires c.Valid()
  {
    seq(c.Early(), _ => 'x') + [' '] + seq(c.chunkSize - c.Early(), _ => 'x')
  }

  lemma TwoWordsAreCut(c: Settings, m: nat)
    requires c.Valid() && c.chunkSize >= 2 && m > LongestKept(c)
    ensures WordsUpTo(TwoWords(c), m) && !KeepsWords(TwoWords(c), AllWindows(c, TwoWords(c)))
  {
    hide Usable;
    var text, at, hi := TwoWords(c), c.Early(), c.chunkSize;
    assert text[at] == ' ' && |text| == hi + 1;
    forall i, j | 0 <= i <= j <= |text| && Unbroken(text, i, j)
      ensures j - i <= m
    {
      assert !(i <= at < j);
    }
    forall w: Separator, q
      ensures !Usable(c, text, 0, hi, w, q)
    {
      if Usable(c, text, 0, hi, w, q) {
        SeparatorsBreak(c, text, 0, hi, w, q);
      }
    }
    BoundaryMeaning(c, text, 0, hi);
    assert NothingUsable(c, text, 0, hi);
    assert WindowEnd(c, text, 0) == hi;
    assert Windows(c, text, 0)[0].to == hi && Windows(c, text, 0)[0] in Windows(c, text, 0);
    assert InsideWord(text, hi);
  }

  /** With windows of one character, any longer word is cut. */
  lemma OneByOneCuts(c: Settings)
    requires c.Valid() && c.chunkSize == 1
    ensures WordsUpTo("xx", 2) && !KeepsWords("xx", AllWindows(c, "xx"))
  {
    assert WindowEnd(c, "xx", 0) == 1;
    assert Windows(c, "xx", 0)[0] in Windows(c, "xx", 0);
    assert InsideWord("xx", 1);
  }

  /** No window ends inside a word, on any text whose words have at most `m`
      characters, if and only if `m` is at most what is always kept. */
  lemma WordsAreKeptIff(c: Settings, m: nat)
    requires c.Valid()
    ensures (forall text: string | WordsUpTo(text, m) :: KeepsWords(text, AllWindows(c, text))) <==> m <= LongestKept(c)
  {
    hide WordsUpTo, KeepsWords, Windows;
    if m <= LongestKept(c) {
      forall text: string | WordsUpTo(text, m)
        ensures KeepsWords(text, AllWindows(c, text))
      {
        if |text| > 0 {
          ShortWordsAreKept(c, text, 0, m);
        } else {
          NothingCut(text);
        }
      }
    } else if c.chunkSize >= 2 {
      TwoWordsAreCut(c, m);
    } else {
      OneByOneCuts(c);
      LongerAllowed("xx", 2, m);
    }
  }

  lemma LongerAllowed(text: string, m: nat, n: nat)
    requires WordsUpTo(text, m) && m <= n
    ensures WordsUpTo(text, n)
  {
  }

  lemma NothingCut(text: string)
    ensures KeepsWords(text, [])
  {
  }

  function WindowTexts(text: string, ws: seq<Window>): seq<string>
    requires forall w | w in ws :: w.from <= w.to <= |text|
  {
    seq(|ws|, i requires 0 <= i < |ws| => assert ws[i] in ws; text[ws[i].from..ws[i].to])
  }

  /** Puts window texts back together, knowing only how much they overlap. */
  function Reassemble(overlap: nat, texts: seq<string>): string {
    if |texts| == 0 then ""
    else if |texts| == 1 then texts[0]
    else
      var last := texts[|texts| - 1];
      Reassemble(overlap, texts[..|texts| - 1]) + if overlap <= |last| then last[overlap..] else ""
  }

  lemma ReassembleLast(text: string, ws: seq<Window>, overlap: nat)
    requires |ws| > 1 && forall w | w in ws :: w.from <= w.to <= |text|
    requires ws[|ws| - 1].from + overlap <= ws[|ws| - 1].to
    ensures var front, last := ws[..|ws| - 1], ws[|ws| - 1];
            Reassemble(overlap, WindowTexts(text, ws)) == Reassemble(overlap, WindowTexts(text, front)) + text[last.from + overlap..last.to]
  {
    var n := |ws| - 1;
    assert WindowTexts(text, ws)[..n] == WindowTexts(text, ws[..n]);
    assert text[ws[n].from..ws[n].to][overlap..] == text[ws[n].from + overlap..ws[n].to];
  }

  lemma ExactFront(c: Settings, text: string, ws: seq<Window>)
    requires |ws| > 1 && Stepping(c, text, ws) && Exact(c, ws)
    ensures var n := |ws| - 1;
            && Stepping(c, text, ws[..n]) && Exact(c, ws[..n])
            && ws[n].from == ws[n - 1].to - c.overlap && ws[n - 1].to < ws[n].to
    ensures forall w | w in ws :: w.from <= w.to <= |text|
  {
    hide Steps, NextCursor;
    var n := |ws| - 1;
    assert ExactStep(c, ws[n - 1], ws[n]);
    forall i | 0 < i < n
      ensures Steps(c, text, ws[..n][i - 1], ws[..n][i]) && ExactStep(c, ws[..n][i - 1], ws[..n][i])
    {
      assert Steps(c, text, ws[i - 1], ws[i]) && ExactStep(c, ws[i - 1], ws[i]);
    }
  }

  lemma {:induction false} ReassembleWindows(c: Settings, text: string, ws: seq<Window>)
    requires c.Valid() && |ws| > 0 && Stepping(c, text, ws) && Exact(c, ws)
    ensures ws[0].from <= ws[|ws| - 1].to
    ensures Reassemble(c.overlap, WindowTexts(text, ws)) == text[ws[0].from..ws[|ws| - 1].to]
  {
    var n := |ws| - 1;
    if n > 0 {
      hide WindowEnd, Reassemble, WindowTexts, Stepping, Exact, Steps, ExactStep;
      var front := ws[..n];
      ExactFront(c, text, ws);
      ReassembleWindows(c, text, front);
      ReassembleLast(text, ws, c.overlap);
      assert text[ws[0].from..ws[n - 1].to] + text[ws[n - 1].to..ws[n].to] == text[ws[0].from..ws[n].to];
    }
  }

  /** The raw windows of a text, which need only their overlap dropped, give it back. */
  lemma WindowsRoundTrip(c: Settings, text: string)
    requires c.Valid() && c.overlap <= c.Early() + 1
    ensures |text| > 0 ==> Stepping(c, text, AllWindows(c, text))
    ensures Reassemble(c.overlap, WindowTexts(text, AllWindows(c, text))) == text
  {
    if |text| > 0 {
      WindowsStep(c, text, 0);
      WindowsExact(c, text, 0);
      ReassembleWindows(c, text, AllWindows(c, text));
    }
  }

  // ----- pieces and chunks -----

  datatype Piece = Piece(text: string, start: nat)

  /** The stripped window, where it lies in the document; nothing if it is blank. */
  function PieceOf(text: string, base: nat, w: Window): seq<Piece>
    requires w.from <= w.to <= |text|
  {
    var raw := text[w.from..w.to];
    if Strip(raw) == "" then [] else [Piece(Strip(raw), base + w.from + Lead(raw))]
  }

  function PiecesOf(text: string, base: nat, ws: seq<Window>): seq<Piece>
    requires forall i | 0 <= i < |ws| :: ws[i].from <= ws[i].to <= |text|
  {
    if |ws| == 0 then []
    else PiecesOf(text, base, ws[..|ws| - 1]) + PieceOf(text, base, ws[|ws| - 1])
  }

  function Base(b: Block): nat {
    if b.charStart.Some? then b.charStart.value else 0
  }

  function BlockPieces(c: Settings, b: Block): seq<Piece>
    requires c.Valid()
  {
    AllWindowsInBounds(c, b.text);
    PiecesOf(b.text, Base(b), AllWindows(c, b.text))
  }

  lemma AllWindowsInBounds(c: Settings, text: string)
    requires c.Valid()
    ensures Stepping(c, text, AllWindows(c, text))
  {
    if |text| > 0 {
      WindowsStep(c, text, 0);
    }
  }

  lemma OneMoreWindow(text: string, base: nat, ws: seq<Window>, w: Window)
    requires forall i | 0 <= i < |ws| :: ws[i].from <= ws[i].to <= |text|
    requires w.from <= w.to <= |text|
    ensures PiecesOf(text, base, ws + [w]) == PiecesOf(text, base, ws) + PieceOf(text, base, w)
  {
    assert (ws + [w])[..|ws|] == ws;
  }

  lemma NoPieces(text: string, base: nat)
    ensures PiecesOf(text, base, []) == []
  {
  }

  /** The shortcut for short blocks gives what the window walk would. */
  lemma ShortBlock(c: Settings, b: Block)
    requires c.Valid() && |b.text| <= c.chunkSize
    ensures BlockPieces(c, b) == if Strip(b.text) == "" then [] else [Piece(Strip(b.text), Base(b) + Lead(b.text))]
  {
    hide Strip, Lead, Boundary;
    if |b.text| == 0 {
      StripIsSlice(b.text);
      NoPieces(b.text, Base(b));
    } else {
      assert b.text[0..|b.text|] == b.text;
      assert AllWindows(c, b.text) == [] + [Window(0, |b.text|)];
      OneMoreWindow(b.text, Base(b), [], Window(0, |b.text|));
      NoPieces(b.text, Base(b));
    }
  }

  /** Moving one window from what is left to what is done. */
  lemma WalkOne(c: Settings, text: string, done: seq<Window>, cursor: nat, all: seq<Window>)
    requires c.Valid() && cursor < |text| && done + WindowsFrom(c, text, cursor) == all
    ensures var end := WindowEnd(c, text, cursor);
            done + [Window(cursor, end)] + (if end >= |text| then [] else WindowsFrom(c, text, NextCursor(c, cursor, end))) == all
  {
    hide WindowEnd;
    UnfoldWindows(c, text, cursor);
  }

  lemma StartWalk(c: Settings, b: Block)
    requires c.Valid()
    ensures [] + WindowsFrom(c, b.text, 0) == AllWindows(c, b.text)
    ensures Stepping(c, b.text, AllWindows(c, b.text))
    ensures forall i | 0 <= i < |AllWindows(c, b.text)| :: AllWindows(c, b.text)[i].from <= AllWindows(c, b.text)[i].to <= |b.text|
    ensures BlockPieces(c, b) == PiecesOf(b.text, Base(b), AllWindows(c, b.text))
  {
    AllWindowsInBounds(c, b.text);
  }

  /** `_split_block`: a short block is one piece; a long one is walked by the window. */
  method SplitBlock(c: Settings, block: Block) returns (pieces: seq<Piece>)
    requires c.Valid()
    ensures pieces == BlockPieces(c, block)
  {
    hide Strip, Lead, WindowEnd, WindowsFrom, AllWindows, PiecesOf, Stepping, BlockPieces;
    var base, text := Base(block), block.text;
    AllWindowsInBounds(c, text);
    if |text| <= c.chunkSize {
      ShortBlock(c, block);
      var stripped := Strip(text);
      return if stripped == "" then [] else [Piece(stripped, base + Lead(text))];
    }
    pieces := [];
    var cursor := 0;
    ghost var done: seq<Window> := [];
    ghost var all := AllWindows(c, text);
    NoPieces(text, base);
    StartWalk(c, block);
    while cursor < |text|
      invariant 0 <= cursor < |text|
      invariant forall i | 0 <= i < |done| :: done[i].from <= done[i].to <= |text|
      invariant done + WindowsFrom(c, text, cursor) == all
      invariant pieces == PiecesOf(text, base, done)
      decreases |text| - cursor
    {
      var end := WindowEnd(c, text, cursor);
      var w := Window(cursor, end);
      OneMoreWindow(text, base, done, w);
      WalkOne(c, text, done, cursor, all);
      var raw := text[cursor..end];
      var stripped := Strip(raw);
      if stripped != "" {
        pieces := pieces + [Piece(stripped, base + cursor + Lead(raw))];
      }
      done := done + [w];
      if end >= |text| {
        assert done + [] == done;
        break;
      }
      cursor := NextCursor(c, cursor, end);
    }
    assert done == all;
  }

  datatype Chunk = Chunk(text: string, ordinal: nat, page: Option<nat>, charStart: nat, charEnd: nat)

  function ChunkOf(p: Piece, ordinal: nat, page: Option<nat>): Chunk {
    Chunk(p.text, ordinal, page, p.start, p.start + |p.text|)
  }

  function Numbered(pieces: seq<Piece>, page: Option<nat>, first: nat): seq<Chunk> {
    seq(|pieces|, i requires 0 <= i < |pieces| => ChunkOf(pieces[i], first + i, page))
  }

  function Chunks(c: Settings, blocks: seq<Block>): seq<Chunk>
    requires c.Valid()
  {
    if |blocks| == 0 then []
    else
      var before, last := Chunks(c, blocks[..|blocks| - 1]), blocks[|blocks| - 1];
      before + Numbered(BlockPieces(c, last), last.page, |before|)
  }

  lemma OneMoreBlock(c: Settings, blocks: seq<Block>, n: nat)
    requires c.Valid() && n < |blocks|
    ensures var before := Chunks(c, blocks[..n]);
            Chunks(c, blocks[..n + 1]) == before + Numbered(BlockPieces(c, blocks[n]), blocks[n].page, |before|)
  {
    hide BlockPieces, Numbered;
    assert blocks[..n + 1][..n] == blocks[..n];
  }

  lemma OneMorePiece(before: seq<Chunk>, pieces: seq<Piece>, page: Option<nat>, k: nat)
    requires k < |pieces|
    ensures before + Numbered(pieces[..k], page, |before|) + [ChunkOf(pieces[k], |before| + k, page)]
         == before + Numbered(pieces[..k + 1], page, |before|)
  {
  }

  /** `RecursiveCharacterChunker.chunk`. */
  method ChunkBlocks(c: Settings, blocks: seq<Block>) returns (chunks: seq<Chunk>)
    requires c.Valid()
    ensures chunks == Chunks(c, blocks)
  {
    hide BlockPieces, Chunks;
    chunks := [];
    NoBlocks(c);
    for n := 0 to |blocks|
      invariant chunks == Chunks(c, blocks[..n])
    {
      var pieces := SplitBlock(c, blocks[n]);
      ghost var before := chunks;
      for k := 0 to |pieces|
        invariant chunks == before + Numbered(pieces[..k], blocks[n].page, |before|)
      {
        OneMorePiece(before, pieces, blocks[n].page, k);
        chunks := chunks + [ChunkOf(pieces[k], |chunks|, blocks[n].page)];
      }
      assert pieces[..|pieces|] == pieces;
      OneMoreBlock(c, blocks, n);
    }
    assert blocks[..|blocks|] == blocks;
  }

  lemma NoBlocks(c: Settings)
    requires c.Valid()
    ensures Chunks(c, []) == []
  {
  }
}
