// Wrapping a logical line of the editor (internal/tui/editor.go). A line is a
// sequence of graphemes, each with its size in bytes and its width in columns;
// positions in a line are counted in graphemes.

module EditorWrap {

  datatype Glyph = Glyph(size: nat, width: nat, space: bool)

  type Grapheme = g: Glyph | g.size > 0 witness Glyph(1, 1, false)

  type Line = seq<Grapheme>

  datatype Chunk = Chunk(start: nat, end: nat)

  function Width(line: Line, a: nat, b: nat): nat
    requires b <= |line|
    decreases b
  {
    if a >= b then 0 else Width(line, a, b - 1) + line[b - 1].width
  }

  /** What the loop carries: the pending chunk, its columns, and the last place
      behind white space in it. */
  datatype Scan = Scan(chunks: seq<Chunk>, start: nat, columns: nat, lastBreak: int, breakColumns: nat)

  function Cut(line: Line, width: int, s: Scan, pos: nat): int
    requires pos < |line|
  {
    if s.lastBreak > s.start && s.columns - s.breakColumns + line[pos].width <= width then s.lastBreak else pos
  }

  function Overflows(line: Line, width: int, s: Scan, pos: nat): bool
    requires pos < |line|
  {
    s.columns + line[pos].width > width && pos > s.start
  }

  function AfterCut(line: Line, width: int, s: Scan, pos: nat): Scan
    requires pos < |line|
  {
    if Overflows(line, width, s, pos) && Cut(line, width, s, pos) >= 0 then
      var cut: nat := Cut(line, width, s, pos);
      Scan(s.chunks + [Chunk(s.start, cut)], cut, Width(line, cut, pos), -1, s.breakColumns)
    else s
  }

  function AddGrapheme(line: Line, s: Scan, pos: nat): Scan
    requires pos < |line|
  {
    var columns := s.columns + line[pos].width;
    if line[pos].space then s.(columns := columns, lastBreak := pos + 1, breakColumns := columns)
    else s.(columns := columns)
  }

  function Scanned(line: Line, width: int, k: nat): Scan
    requires k <= |line|
  {
    if k == 0 then Scan([], 0, 0, -1, 0)
    else AddGrapheme(line, AfterCut(line, width, Scanned(line, width, k - 1), k - 1), k - 1)
  }

  function Wrap(line: Line, width: int): seq<Chunk> {
    if line == [] || width <= 0 then [Chunk(0, 0)]
    else if Width(line, 0, |line|) <= width then [Chunk(0, |line|)]
    else
      var s := Scanned(line, width, |line|);
      s.chunks + [Chunk(s.start, |line|)]
  }

  // ---------------------------------------------------------------- what a wrapping is

  /** The chunks follow one another without gap, from the first grapheme to the last. */
  ghost predicate Tiles(chunks: seq<Chunk>, from: nat, end: nat) {
    if chunks == [] then from == end
    else
      var last := chunks[|chunks| - 1];
      last.end == end && last.start <= end && Tiles(chunks[..|chunks| - 1], from, last.start)
  }

  // White space ends just before this place.
  predicate BreakAt(line: Line, b: nat)
    requires 0 < b <= |line|
  {
    line[b - 1].space
  }

  /** Within the width, or a single grapheme too wide for it. */
  ghost predicate Fits(line: Line, width: int, c: Chunk) {
    c.start < c.end <= |line| && (Width(line, c.start, c.end) <= width || c.end == c.start + 1)
  }

  /** No place behind c would do: every later place behind white space, and every
      later place at all when c does not end behind white space, is too far. */
  ghost predicate Greedy(line: Line, width: int, c: Chunk)
    requires c.start < c.end <= |line|
  {
    forall b :: c.end < b <= |line| && (BreakAt(line, b) || b == |line| || !BreakAt(line, c.end))
      ==> Width(line, c.start, b) > width
  }

  /** A word is cut only when it does not fit a line from its own start, white
      space before it included or not. */
  ghost predicate WordsWhole(line: Line, width: int, c: Chunk)
    requires c.start < c.end < |line|
  {
    !BreakAt(line, c.end) ==>
      forall b :: c.start < b <= c.end && BreakAt(line, b) ==> Width(line, b, c.end + 1) > width
  }

  ghost predicate GoodCut(line: Line, width: int, c: Chunk) {
    Fits(line, width, c) && c.end < |line| && Greedy(line, width, c) && WordsWhole(line, width, c)
  }

  // ---------------------------------------------------------------- widths

  lemma {:induction false} WidthSplits(line: Line, a: nat, b: nat, c: nat)
    requires a <= b <= c <= |line|
    ensures Width(line, a, c) == Width(line, a, b) + Width(line, b, c)
    decreases c
  {
    if b < c { WidthSplits(line, a, b, c - 1); }
  }

  lemma WidthGrows(line: Line, a: nat, b: nat, c: nat)
    requires a <= b <= c <= |line|
    ensures Width(line, a, b) <= Width(line, a, c) && Width(line, b, c) <= Width(line, a, c)
  {
    WidthSplits(line, a, b, c);
  }

  // ---------------------------------------------------------------- the invariant

  ghost predicate NoBreaks(line: Line, a: nat, b: nat)
    requires b <= |line|
  {
    forall i :: a < i <= b ==> !BreakAt(line, i)
  }

  ghost predicate KnowsBreak(line: Line, s: Scan, pos: nat)
    requires s.start <= pos <= |line|
  {
    if s.lastBreak < 0 then NoBreaks(line, s.start, pos)
    else
      && s.start < s.lastBreak <= pos && BreakAt(line, s.lastBreak)
      && s.breakColumns == Width(line, s.start, s.lastBreak)
      && NoBreaks(line, s.lastBreak, pos)
  }

  ghost predicate ScanSound(line: Line, width: int, s: Scan, pos: nat) {
    && s.start <= pos <= |line| && (pos > 0 ==> s.start < pos)
    && s.columns == Width(line, s.start, pos)
    && (s.columns <= width || pos == s.start + 1)
    && KnowsBreak(line, s, pos)
    && Tiles(s.chunks, 0, s.start)
    && forall i :: 0 <= i < |s.chunks| ==> GoodCut(line, width, s.chunks[i])
  }

  lemma CutIsGood(line: Line, width: int, s: Scan, pos: nat)
    requires width > 0 && pos < |line| && ScanSound(line, width, s, pos) && Overflows(line, width, s, pos)
    ensures s.start < Cut(line, width, s, pos) <= pos && GoodCut(line, width, Chunk(s.start, Cut(line, width, s, pos)))
  {
    hide Tiles;
    var cut := Cut(line, width, s, pos);
    var c := Chunk(s.start, cut);
    WidthGrows(line, s.start, cut, pos);
    assert Width(line, s.start, pos + 1) > width;
    assert Fits(line, width, c);
    forall b | cut < b <= |line| && (BreakAt(line, b) || b == |line| || !BreakAt(line, cut))
      ensures Width(line, s.start, b) > width
    {
      assert b > pos;
      WidthGrows(line, s.start, pos + 1, b);
    }
    if !BreakAt(line, cut) {
      forall b | s.start < b <= cut && BreakAt(line, b) ensures Width(line, b, cut + 1) > width {
        var last: nat := s.lastBreak;
        WidthSplits(line, s.start, last, pos + 1);
        WidthGrows(line, b, last, pos + 1);
      }
    }
  }

  lemma CutIsSound(line: Line, width: int, s: Scan, pos: nat)
    requires width > 0 && pos < |line| && ScanSound(line, width, s, pos) && Overflows(line, width, s, pos)
    ensures var t := AfterCut(line, width, s, pos);
      && s.start < t.start <= pos && t.columns == Width(line, t.start, pos) && KnowsBreak(line, t, pos)
      && (t.columns + line[pos].width <= width || t.start == pos)
      && Tiles(t.chunks, 0, t.start) && forall i :: 0 <= i < |t.chunks| ==> GoodCut(line, width, t.chunks[i])
  {
    hide GoodCut, Tiles;
    CutIsGood(line, width, s, pos);
    var cut: nat := Cut(line, width, s, pos);
    TilesGrow(s.chunks, 0, s.start, cut);
    WidthSplits(line, s.start, cut, pos);
  }

  lemma TilesGrow(chunks: seq<Chunk>, from: nat, end: nat, next: nat)
    requires Tiles(chunks, from, end) && end <= next
    ensures Tiles(chunks + [Chunk(end, next)], from, next)
  {
    assert (chunks + [Chunk(end, next)])[..|chunks|] == chunks;
  }

  lemma {:induction false} ScanIsSound(line: Line, width: int, k: nat)
    requires width > 0 && k <= |line|
    ensures ScanSound(line, width, Scanned(line, width, k), k)
  {
    hide GoodCut, Tiles, AfterCut;
    if k == 0 {
      assert Tiles([], 0, 0) by { NothingTiles(); }
    } else {
      var s := Scanned(line, width, k - 1);
      ScanIsSound(line, width, k - 1);
      if Overflows(line, width, s, k - 1) {
        CutIsSound(line, width, s, k - 1);
      } else {
        NoCut(line, width, s, k - 1);
      }
      var t := AfterCut(line, width, s, k - 1);
      GraphemeIsSound(line, width, t, k - 1);
    }
  }

  lemma NothingTiles()
    ensures Tiles([], 0, 0)
  {
  }

  lemma NoCut(line: Line, width: int, s: Scan, pos: nat)
    requires pos < |line| && !Overflows(line, width, s, pos)
    ensures AfterCut(line, width, s, pos) == s
  {
  }

  lemma GraphemeIsSound(line: Line, width: int, t: Scan, pos: nat)
    requires pos < |line| && t.start <= pos && t.columns == Width(line, t.start, pos) && KnowsBreak(line, t, pos)
    requires t.columns + line[pos].width <= width || t.start == pos
    requires Tiles(t.chunks, 0, t.start) && forall i :: 0 <= i < |t.chunks| ==> GoodCut(line, width, t.chunks[i])
    ensures ScanSound(line, width, AddGrapheme(line, t, pos), pos + 1)
  {
    hide GoodCut, Tiles, KnowsBreak;
    BreakIsKnown(line, t, pos);
  }

  lemma BreakIsKnown(line: Line, t: Scan, pos: nat)
    requires pos < |line| && t.start <= pos && t.columns == Width(line, t.start, pos) && KnowsBreak(line, t, pos)
    ensures KnowsBreak(line, AddGrapheme(line, t, pos), pos + 1)
  {
  }

  // ---------------------------------------------------------------- main results

  /** Wrapping loses nothing exactly when there is room at all: the chunks of a
      line tile it if and only if the width is positive or the line is empty. */
  lemma WrapTilesExactly(line: Line, width: int)
    ensures Tiles(Wrap(line, width), 0, |line|) <==> width > 0 || line == []
  {
    hide GoodCut;
    if line == [] || width <= 0 {
      OneTile(0);
    } else if Width(line, 0, |line|) <= width {
      OneTile(|line|);
    } else {
      ScanIsSound(line, width, |line|);
      var s := Scanned(line, width, |line|);
      TilesGrow(s.chunks, 0, s.start, |line|);
    }
  }

  lemma OneTile(end: nat)
    ensures forall n: nat :: Tiles([Chunk(0, end)], 0, n) <==> n == end
  {
    assert [Chunk(0, end)][..0] == [];
  }

  /** Every visual line fits the width unless it is one over-wide grapheme; every cut
      is as late as possible and spares words that fit a line. */
  lemma WrapFits(line: Line, width: int)
    requires width > 0 && line != []
    ensures var chunks := Wrap(line, width);
      && chunks != []
      && (forall i :: 0 <= i < |chunks| ==> Fits(line, width, chunks[i]))
      && (forall i :: 0 <= i < |chunks| - 1 ==> GoodCut(line, width, chunks[i]))
  {
    hide Tiles;
    if Width(line, 0, |line|) > width {
      ScanIsSound(line, width, |line|);
      var s := Scanned(line, width, |line|);
      var chunks := s.chunks + [Chunk(s.start, |line|)];
      forall i | 0 <= i < |s.chunks| ensures Fits(line, width, s.chunks[i]) {
        assert GoodCut(line, width, s.chunks[i]);
      }
      assert Fits(line, width, Chunk(s.start, |line|));
    }
  }

  /** A line is cut only when it does not fit as a whole. */
  lemma WrapKeepsFitting(line: Line, width: int)
    requires width > 0
    ensures |Wrap(line, width)| == 1 <==> Width(line, 0, |line|) <= width || |line| <= 1
  {
    if line != [] && Width(line, 0, |line|) > width {
      ScanIsSound(line, width, |line|);
      var s := Scanned(line, width, |line|);
      if s.chunks == [] {
        assert s.start == 0;
      } else {
        var first := s.chunks[0];
        assert GoodCut(line, width, first);
        assert |line| > 1;
      }
    }
  }

  // ---------------------------------------------------------------- the loop

  method WrapLine(line: Line, width: int) returns (chunks: seq<Chunk>)
    ensures chunks == Wrap(line, width)
  {
    hide ScanSound;
    if line == [] || width <= 0 { return [Chunk(0, 0)]; }
    var total := VisibleWidth(line, 0, |line|);
    if total <= width { return [Chunk(0, |line|)]; }
    chunks := [];
    var start, columns, lastBreak, breakColumns := 0, 0, -1, 0;
    for pos := 0 to |line|
      invariant start >= 0 && columns >= 0 && breakColumns >= 0
      invariant Scan(chunks, start, columns, lastBreak, breakColumns) == Scanned(line, width, pos)
    {
      ScanIsSound(line, width, pos);
      var s := Scanned(line, width, pos);
      var gw := line[pos].width;
      if columns + gw > width && pos > start {
        CutIsPlaced(line, width, pos);
        var cut := pos;
        if lastBreak > start && columns - breakColumns + gw <= width {
          cut := lastBreak;
        }
        chunks := chunks + [Chunk(start, cut)];
        start := cut;
        columns := VisibleWidth(line, start, pos);
        lastBreak := -1;
      }
      columns := columns + gw;
      if line[pos].space {
        lastBreak, breakColumns := pos + 1, columns;
      }
    }
    chunks := chunks + [Chunk(start, |line|)];
  }

  lemma CutIsPlaced(line: Line, width: int, pos: nat)
    requires width > 0 && pos < |line| && Overflows(line, width, Scanned(line, width, pos), pos)
    ensures 0 <= Cut(line, width, Scanned(line, width, pos), pos) <= pos
  {
    ScanIsSound(line, width, pos);
    CutIsGood(line, width, Scanned(line, width, pos), pos);
  }

  method VisibleWidth(line: Line, a: nat, b: nat) returns (w: nat)
    requires a <= b <= |line|
    ensures w == Width(line, a, b)
  {
    w := 0;
    for i := a to b
      invariant w == Width(line, a, i)
    {
      w := w + line[i].width;
    }
  }
}
