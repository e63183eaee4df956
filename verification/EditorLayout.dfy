// The editor's visual lines and its cursor among them (internal/tui/editor.go).

module EditorLayout {
  import opened EditorWrap
  import opened Options

  /** One visual line: graphemes from..to of a logical line, bytes start..end of the
      text. */
  datatype Visual = Visual(part: nat, from: nat, to_: nat, start: nat, end: nat, logicalEnd: bool)

  function Bytes(line: Line, k: nat): nat
    requires k <= |line|
  {
    if k == 0 then 0 else Bytes(line, k - 1) + line[k - 1].size
  }

  /** Where logical line k starts in the text; one byte separates the lines. */
  function PartStart(parts: seq<Line>, k: nat): nat
    requires k <= |parts|
  {
    if k == 0 then 0 else PartStart(parts, k - 1) + Bytes(parts[k - 1], |parts[k - 1]|) + 1
  }

  function TextSize(parts: seq<Line>): nat
    requires parts != []
  {
    PartStart(parts, |parts| - 1) + Bytes(parts[|parts| - 1], |parts[|parts| - 1]|)
  }

  predicate InLine(line: Line, c: Chunk) { c.start <= c.end <= |line| }

  function Placed(parts: seq<Line>, k: nat, c: Chunk, logicalEnd: bool): Visual
    requires k < |parts| && InLine(parts[k], c)
  {
    var offset := PartStart(parts, k);
    Visual(k, c.start, c.end, offset + Bytes(parts[k], c.start), offset + Bytes(parts[k], c.end), logicalEnd)
  }

  ghost predicate AllInLine(line: Line, chunks: seq<Chunk>) { forall i :: 0 <= i < |chunks| ==> InLine(line, chunks[i]) }

  /** The first m chunks of a logical line as visual lines. */
  function PlacedChunks(parts: seq<Line>, k: nat, chunks: seq<Chunk>, m: nat): (r: seq<Visual>)
    requires k < |parts| && m <= |chunks| && AllInLine(parts[k], chunks)
    ensures |r| == m
  {
    if m == 0 then []
    else PlacedChunks(parts, k, chunks, m - 1) + [Placed(parts, k, chunks[m - 1], m == |chunks|)]
  }

  lemma WrapInLine(line: Line, width: int)
    ensures AllInLine(line, Wrap(line, width)) && Wrap(line, width) != []
  {
    if line != [] && width > 0 { WrapFits(line, width); }
  }

  function PartLayout(parts: seq<Line>, k: nat, width: int): seq<Visual>
    requires k < |parts|
  {
    WrapInLine(parts[k], width);
    var chunks := Wrap(parts[k], width);
    PlacedChunks(parts, k, chunks, |chunks|)
  }

  function Layout(parts: seq<Line>, k: nat, width: int): seq<Visual>
    requires k <= |parts|
  {
    if k == 0 then [] else Layout(parts, k - 1, width) + PartLayout(parts, k - 1, width)
  }

  method LayoutText(parts: seq<Line>, width: int) returns (result: seq<Visual>)
    ensures result == Layout(parts, |parts|, width)
  {
    hide Wrap, PlacedChunks, Bytes;
    result := [];
    var offset := 0;
    for k := 0 to |parts|
      invariant result == Layout(parts, k, width) && offset == PartStart(parts, k)
    {
      var chunks := WrapLine(parts[k], width);
      WrapInLine(parts[k], width);
      var visuals := PlaceChunks(parts, k, chunks, offset);
      result := result + visuals;
      offset := offset + Bytes(parts[k], |parts[k]|) + 1;
    }
  }

  method PlaceChunks(parts: seq<Line>, k: nat, chunks: seq<Chunk>, offset: nat) returns (result: seq<Visual>)
    requires k < |parts| && AllInLine(parts[k], chunks) && offset == PartStart(parts, k)
    ensures result == PlacedChunks(parts, k, chunks, |chunks|)
  {
    hide PartStart, Bytes;
    result := [];
    for i := 0 to |chunks|
      invariant result == PlacedChunks(parts, k, chunks, i)
    {
      var c := chunks[i];
      assert InLine(parts[k], c);
      result := result + [Visual(k, c.start, c.end, offset + Bytes(parts[k], c.start), offset + Bytes(parts[k], c.end), i == |chunks| - 1)];
    }
  }

  // ---------------------------------------------------------------- the cursor's line

  predicate OnLine(v: Visual, cursor: int) {
    v.start <= cursor && (cursor < v.end || (cursor == v.end && v.logicalEnd))
  }

  /** On how many of the visual lines the cursor lies. */
  function CountOn(layout: seq<Visual>, cursor: int): nat {
    if layout == [] then 0
    else CountOn(layout[..|layout| - 1], cursor) + (if OnLine(layout[|layout| - 1], cursor) then 1 else 0)
  }

  lemma {:induction false} CountAdds(a: seq<Visual>, b: seq<Visual>, cursor: int)
    ensures CountOn(a + b, cursor) == CountOn(a, cursor) + CountOn(b, cursor)
    decreases |b|
  {
    if b == [] {
      assert a + b == a;
    } else {
      var n := |b| - 1;
      assert (a + b)[..|a + b| - 1] == a + b[..n] && (a + b)[|a + b| - 1] == b[n];
      CountAdds(a, b[..n], cursor);
    }
  }

  lemma {:induction false} CountNone(layout: seq<Visual>, cursor: int)
    ensures CountOn(layout, cursor) == 0 <==> forall i :: 0 <= i < |layout| ==> !OnLine(layout[i], cursor)
  {
    hide OnLine;
    if layout != [] {
      var n := |layout| - 1;
      CountNone(layout[..n], cursor);
      assert forall i :: 0 <= i < n ==> layout[..n][i] == layout[i];
    }
  }

  ghost predicate OnlyLine(layout: seq<Visual>, cursor: int, i: int) {
    0 <= i < |layout| && forall j :: 0 <= j < |layout| ==> (OnLine(layout[j], cursor) <==> j == i)
  }

  ghost predicate HasOnlyLine(layout: seq<Visual>, cursor: int) { exists i :: OnlyLine(layout, cursor, i) }

  // Counting one is lying on exactly one.
  lemma {:induction false} CountOne(layout: seq<Visual>, cursor: int)
    ensures CountOn(layout, cursor) == 1 <==> HasOnlyLine(layout, cursor)
  {
    hide OnLine;
    if layout != [] {
      var n := |layout| - 1;
      CountOne(layout[..n], cursor);
      CountNone(layout[..n], cursor);
      assert forall i :: 0 <= i < n ==> layout[..n][i] == layout[i];
      if OnLine(layout[n], cursor) {
        if CountOn(layout[..n], cursor) == 0 { assert OnlyLine(layout, cursor, n); }
      } else {
        OnlyExtends(layout, cursor);
      }
    }
  }

  lemma OnlyExtends(layout: seq<Visual>, cursor: int)
    requires layout != [] && !OnLine(layout[|layout| - 1], cursor)
    ensures HasOnlyLine(layout, cursor) <==> HasOnlyLine(layout[..|layout| - 1], cursor)
  {
    hide OnLine;
    var n := |layout| - 1;
    if i :| OnlyLine(layout, cursor, i) { assert OnlyLine(layout[..n], cursor, i); }
    if i :| OnlyLine(layout[..n], cursor, i) {
      forall j | 0 <= j < |layout| ensures OnLine(layout[j], cursor) <==> j == i {
        assert j < n ==> layout[..n][j] == layout[j];
      }
      assert OnlyLine(layout, cursor, i);
    }
  }

  lemma {:induction false} BytesGrow(line: Line, a: nat, b: nat)
    requires a <= b <= |line|
    ensures Bytes(line, a) + (b - a) <= Bytes(line, b)
  {
    if a < b { BytesGrow(line, a, b - 1); }
  }

  // The chunks before the last one share out the bytes they cover.
  lemma {:induction false} ChunksShare(parts: seq<Line>, k: nat, chunks: seq<Chunk>, m: nat, end: nat, cursor: int)
    requires k < |parts| && m < |chunks| && AllInLine(parts[k], chunks) && Tiles(chunks[..m], 0, end) && end <= |parts[k]|
    ensures CountOn(PlacedChunks(parts, k, chunks, m), cursor)
      == if PartStart(parts, k) <= cursor < PartStart(parts, k) + Bytes(parts[k], end) then 1 else 0
  {
    hide AllInLine, PartStart;
    if m > 0 {
      var c := chunks[m - 1];
      assert chunks[..m][..m - 1] == chunks[..m - 1] && chunks[..m][m - 1] == c;
      ChunksShare(parts, k, chunks, m - 1, c.start, cursor);
      BytesGrow(parts[k], c.start, end);
      PlacedLast(parts, k, chunks, m, cursor);
    }
  }

  lemma PlacedLast(parts: seq<Line>, k: nat, chunks: seq<Chunk>, m: nat, cursor: int)
    requires k < |parts| && 0 < m <= |chunks| && AllInLine(parts[k], chunks)
    ensures InLine(parts[k], chunks[m - 1])
    ensures CountOn(PlacedChunks(parts, k, chunks, m), cursor)
      == CountOn(PlacedChunks(parts, k, chunks, m - 1), cursor)
         + if OnLine(Placed(parts, k, chunks[m - 1], m == |chunks|), cursor) then 1 else 0
  {
    hide Placed, OnLine;
    var before := PlacedChunks(parts, k, chunks, m - 1);
    var all := PlacedChunks(parts, k, chunks, m);
    assert all[..|all| - 1] == before;
  }

  lemma PartHoldsItsCursors(parts: seq<Line>, k: nat, width: int, cursor: int)
    requires k < |parts| && width > 0
    ensures CountOn(PartLayout(parts, k, width), cursor)
      == if PartStart(parts, k) <= cursor <= PartStart(parts, k) + Bytes(parts[k], |parts[k]|) then 1 else 0
  {
    hide Wrap, PartStart, PlacedChunks, AllInLine;
    var line := parts[k];
    var chunks := Wrap(line, width);
    var m := |chunks| - 1;
    WrapInLine(line, width);
    WrapTilesExactly(line, width);
    assert chunks[..|chunks| - 1] == chunks[..m];
    var last := chunks[m];
    ChunksShare(parts, k, chunks, m, last.start, cursor);
    PlacedLast(parts, k, chunks, |chunks|, cursor);
    BytesGrow(line, last.start, last.end);
  }

  lemma {:induction false} LayoutHoldsCursors(parts: seq<Line>, k: nat, width: int, cursor: int)
    requires k <= |parts| && width > 0
    ensures CountOn(Layout(parts, k, width), cursor) == if 0 <= cursor < PartStart(parts, k) then 1 else 0
  {
    hide PartLayout;
    if k > 0 {
      LayoutHoldsCursors(parts, k - 1, width, cursor);
      PartHoldsItsCursors(parts, k - 1, width, cursor);
      CountAdds(Layout(parts, k - 1, width), PartLayout(parts, k - 1, width), cursor);
    }
  }

  lemma {:induction false} StartsGrow(parts: seq<Line>, j: nat, k: nat)
    requires j < k <= |parts|
    ensures PartStart(parts, j) + Bytes(parts[j], |parts[j]|) + 1 <= PartStart(parts, k)
  {
    if j < k - 1 { StartsGrow(parts, j, k - 1); }
  }

  lemma NoRoomPart(parts: seq<Line>, k: nat, width: int, cursor: int)
    requires k < |parts| && width <= 0
    ensures CountOn(PartLayout(parts, k, width), cursor) == if cursor == PartStart(parts, k) then 1 else 0
  {
    hide PartStart;
    var chunks := [Chunk(0, 0)];
    assert Wrap(parts[k], width) == chunks;
    WrapInLine(parts[k], width);
    PlacedLast(parts, k, chunks, 1, cursor);
  }

  lemma {:induction false} NoRoomNoLine(parts: seq<Line>, k: nat, width: int, cursor: int)
    requires k <= |parts| && width <= 0 && forall j :: 0 <= j < k ==> cursor != PartStart(parts, j)
    ensures CountOn(Layout(parts, k, width), cursor) == 0
  {
    hide PartLayout, PartStart;
    if k > 0 {
      NoRoomNoLine(parts, k - 1, width, cursor);
      NoRoomPart(parts, k - 1, width, cursor);
      CountAdds(Layout(parts, k - 1, width), PartLayout(parts, k - 1, width), cursor);
    }
  }

  lemma {:induction false} EmptyAnyWidth(parts: seq<Line>, k: nat, width: int)
    requires k <= |parts| && forall j :: 0 <= j < |parts| ==> parts[j] == []
    ensures Layout(parts, k, width) == Layout(parts, k, 1)
  {
    if k > 0 { EmptyAnyWidth(parts, k - 1, width); }
  }

  /** Every cursor position of the text belongs to exactly one visual line, exactly
      when there is room for text or no text. */
  lemma EveryCursorHasOneLine(parts: seq<Line>, width: int)
    requires parts != []
    ensures (forall cursor :: 0 <= cursor <= TextSize(parts) ==> HasOnlyLine(Layout(parts, |parts|, width), cursor))
      <==> width > 0 || forall j :: 0 <= j < |parts| ==> parts[j] == []
  {
    hide Layout, HasOnlyLine;
    var n := |parts|;
    if width > 0 || forall j :: 0 <= j < n ==> parts[j] == [] {
      var w := if width > 0 then width else 1;
      if width <= 0 { EmptyAnyWidth(parts, n, width); }
      forall cursor | 0 <= cursor <= TextSize(parts) ensures HasOnlyLine(Layout(parts, n, width), cursor) {
        LayoutHoldsCursors(parts, n, w, cursor);
        CountOne(Layout(parts, n, width), cursor);
      }
    } else {
      var k :| 0 <= k < n && parts[k] != [];
      LostCursor(parts, k, width);
    }
  }

  lemma LostCursor(parts: seq<Line>, k: nat, width: int)
    requires k < |parts| && parts[k] != [] && width <= 0
    ensures 0 <= PartStart(parts, k) + 1 <= TextSize(parts)
    ensures !HasOnlyLine(Layout(parts, |parts|, width), PartStart(parts, k) + 1)
  {
    hide Layout, HasOnlyLine;
    var n, cursor := |parts|, PartStart(parts, k) + 1;
    BytesGrow(parts[k], 0, |parts[k]|);
    if k < n - 1 { StartsGrow(parts, k, n - 1); }
    forall j | 0 <= j < n ensures cursor != PartStart(parts, j) {
      if j < k { StartsGrow(parts, j, k); }
      if k < j { StartsGrow(parts, k, j); }
    }
    NoRoomNoLine(parts, n, width, cursor);
    CountOne(Layout(parts, n, width), cursor);
  }

  /** The loop that looks for the cursor's line, first match wins. */
  method CursorVisualLine(layout: seq<Visual>, cursor: int) returns (index: int)
    requires layout != []
    ensures 0 <= index < |layout|
    ensures forall i :: OnlyLine(layout, cursor, i) ==> index == i
  {
    for i := 0 to |layout|
      invariant forall j :: 0 <= j < i ==> !OnLine(layout[j], cursor)
    {
      if OnLine(layout[i], cursor) { return i; }
    }
    forall i ensures !OnlyLine(layout, cursor, i) {
      if 0 <= i < |layout| { assert !OnLine(layout[i], cursor); }
    }
    return Max(0, |layout| - 1);
  }

  // ---------------------------------------------------------------- columns

  /** The grapheme boundary between a and b that a column falls on. */
  function AtColumn(line: Line, a: nat, b: nat, column: int): (r: nat)
    requires a <= b <= |line|
    ensures a <= r <= b
    decreases b - a
  {
    if a == b then b
    else if column < line[a].width then a
    else AtColumn(line, a + 1, b, column - line[a].width)
  }

  /** The loop over graphemes that finds a column's byte position. */
  method ByteAtColumn(line: Line, a: nat, b: nat, target: int) returns (index: nat, bytes: nat)
    requires a <= b <= |line|
    ensures index == AtColumn(line, a, b, target) && bytes == Bytes(line, index)
  {
    var column: int := 0;
    index, bytes := a, Bytes(line, a);
    while index < b
      invariant a <= index <= b && bytes == Bytes(line, index)
      invariant AtColumn(line, index, b, target - column) == AtColumn(line, a, b, target)
      decreases b - index
    {
      var next := column + line[index].width;
      if target < next { return; }
      column, bytes, index := next, bytes + line[index].size, index + 1;
    }
  }

  lemma {:induction false} WidthFromFront(line: Line, a: nat, b: nat)
    requires a < b <= |line|
    ensures Width(line, a, b) == line[a].width + Width(line, a + 1, b)
  {
    WidthSplits(line, a, a + 1, b);
    assert Width(line, a, a + 1) == line[a].width;
  }

  /** The boundary found is the last one not past the column, unless the line is too
      short for it: then it is the line's end. */
  lemma {:induction false} ColumnFallsInside(line: Line, a: nat, b: nat, column: nat)
    requires a <= b <= |line|
    ensures var r := AtColumn(line, a, b, column);
      Width(line, a, r) <= column && (if r < b then column < Width(line, a, r + 1) else column >= Width(line, a, b))
    decreases b - a
  {
    if a < b && column >= line[a].width {
      ColumnFallsInside(line, a + 1, b, column - line[a].width);
      var r := AtColumn(line, a + 1, b, column - line[a].width);
      WidthFromFront(line, a, r);
      if r < b { WidthFromFront(line, a, r + 1); }
      WidthFromFront(line, a, b);
    }
  }

  /** A boundary's column leads back to it exactly when it ends the line or stands
      before a grapheme with a width. */
  lemma {:induction false} ColumnInverts(line: Line, a: nat, k: nat, b: nat)
    requires a <= k <= b <= |line|
    ensures AtColumn(line, a, b, Width(line, a, k)) == k <==> k == b || line[k].width > 0
    decreases b - a
  {
    if a < k {
      WidthFromFront(line, a, k);
      ColumnInverts(line, a + 1, k, b);
    } else if a < b && line[a].width == 0 {
      assert AtColumn(line, a, b, 0) == AtColumn(line, a + 1, b, 0);
    }
  }

  // ---------------------------------------------------------------- moving up and down

  /** A grapheme boundary of the text. */
  datatype Place = Place(part: nat, at: nat)

  predicate InText(parts: seq<Line>, p: Place) { p.part < |parts| && p.at <= |parts[p.part]| }

  function Offset(parts: seq<Line>, p: Place): nat
    requires InText(parts, p)
  {
    PartStart(parts, p.part) + Bytes(parts[p.part], p.at)
  }

  // The boundary lies on the visual line, its ends included.
  predicate Within(parts: seq<Line>, v: Visual, p: Place) {
    InText(parts, p) && p.part == v.part && v.from <= p.at <= v.to_ <= |parts[p.part]|
  }

  predicate Sound(parts: seq<Line>, v: Visual) {
    v.part < |parts| && v.from <= v.to_ <= |parts[v.part]|
    && v.start == PartStart(parts, v.part) + Bytes(parts[v.part], v.from)
    && v.end == PartStart(parts, v.part) + Bytes(parts[v.part], v.to_)
    && (v.logicalEnd ==> v.to_ == |parts[v.part]|)
  }

  function LineWidth(parts: seq<Line>, v: Visual): nat
    requires Sound(parts, v)
  {
    Width(parts[v.part], v.from, v.to_)
  }

  /** Where a vertical move puts the cursor on its target line. */
  function Landing(parts: seq<Line>, v: Visual, column: nat): Place
    requires Sound(parts, v)
  {
    Place(v.part, AtColumn(parts[v.part], v.from, v.to_, column))
  }

  lemma OnLineMeans(parts: seq<Line>, v: Visual, p: Place)
    requires Sound(parts, v) && Within(parts, v, p)
    ensures OnLine(v, Offset(parts, p)) <==> p.at < v.to_ || v.logicalEnd
  {
    hide PartStart;
    var line := parts[v.part];
    BytesGrow(line, v.from, p.at);
    BytesGrow(line, p.at, v.to_);
  }

  /** A vertical move ends on the line it aims at exactly when that line ends its
      logical line or is wider than the column kept; else the cursor shows at the
      start of the line after it. */
  lemma MoveLandsOnTarget(parts: seq<Line>, v: Visual, column: nat)
    requires Sound(parts, v)
    ensures Within(parts, v, Landing(parts, v, column))
    ensures OnLine(v, Offset(parts, Landing(parts, v, column))) <==> v.logicalEnd || column < LineWidth(parts, v)
  {
    hide Offset, OnLine;
    var line := parts[v.part];
    var r := AtColumn(line, v.from, v.to_, column);
    ColumnFallsInside(line, v.from, v.to_, column);
    if r < v.to_ { WidthGrows(line, v.from, r + 1, v.to_); }
    OnLineMeans(parts, v, Landing(parts, v, column));
  }

  /** Moving away and back with the column kept returns to the same place exactly
      when the cursor ends its line or stands before a grapheme with a width. */
  lemma AwayAndBack(parts: seq<Line>, v: Visual, p: Place)
    requires Sound(parts, v) && Within(parts, v, p)
    ensures Landing(parts, v, Width(parts[v.part], v.from, p.at)) == p
      <==> p.at == v.to_ || parts[v.part][p.at].width > 0
  {
    ColumnInverts(parts[v.part], v.from, p.at, v.to_);
  }

  lemma {:induction false} PlacedAreSound(parts: seq<Line>, k: nat, chunks: seq<Chunk>, m: nat)
    requires k < |parts| && m <= |chunks| && AllInLine(parts[k], chunks)
    requires chunks != [] && chunks[|chunks| - 1].end == |parts[k]|
    ensures AllSound(parts, PlacedChunks(parts, k, chunks, m))
  {
    hide PartStart, Bytes;
    if m > 0 {
      PlacedAreSound(parts, k, chunks, m - 1);
      assert InLine(parts[k], chunks[m - 1]);
    }
  }

  ghost predicate AllSound(parts: seq<Line>, layout: seq<Visual>) { forall i :: 0 <= i < |layout| ==> Sound(parts, layout[i]) }

  lemma {:induction false} LayoutIsSound(parts: seq<Line>, k: nat, width: int)
    requires k <= |parts| && width > 0
    ensures AllSound(parts, Layout(parts, k, width))
    ensures k > 0 ==> Layout(parts, k, width) != []
  {
    hide Sound, Wrap, Tiles, PlacedChunks, AllInLine;
    if k > 0 {
      LayoutIsSound(parts, k - 1, width);
      WrapEnds(parts[k - 1], width);
      WrapInLine(parts[k - 1], width);
      var chunks := Wrap(parts[k - 1], width);
      PlacedAreSound(parts, k - 1, chunks, |chunks|);
    }
  }

  lemma WrapEnds(line: Line, width: int)
    requires width > 0
    ensures var chunks := Wrap(line, width); chunks != [] && chunks[|chunks| - 1].end == |line|
  {
    hide Wrap;
    WrapInLine(line, width);
    WrapTilesExactly(line, width);
  }

  /** The editor's cursor over an unchanging text. */
  class Cursor {
    const parts: seq<Line>
    const width: int
    var cursor: Place
    var preferredX: nat
    var hasPreferredX: bool

    ghost predicate Valid()
      reads this
    {
      parts != [] && width > 0 && InText(parts, cursor)
    }

    constructor (parts: seq<Line>, width: int)
      requires parts != [] && width > 0
      ensures Valid() && cursor == Place(0, 0) && !hasPreferredX && this.parts == parts && this.width == width
    {
      this.parts, this.width := parts, width;
      cursor, preferredX, hasPreferredX := Place(0, 0), 0, false;
    }

    /** Moves by visual lines, staying in the first or last line; at an edge it asks
        for the history instead. */
    method MoveVertical(delta: int, browsing: bool) returns (history: bool)
      requires Valid()
      modifies this
      ensures Valid()
      ensures var layout := Layout(parts, |parts|, width);
        exists i: int :: OnlyLine(layout, Offset(parts, old(cursor)), i) &&
          (history <==> (delta < 0 && i == 0) || (delta > 0 && i == |layout| - 1 && browsing)) &&
          (history ==> cursor == old(cursor) && hasPreferredX == old(hasPreferredX)) &&
          (!history ==>
             var target := Max(0, Min(|layout| - 1, i + delta));
             && Within(parts, layout[i], old(cursor)) && Sound(parts, layout[target])
             && hasPreferredX
             && preferredX == (if old(hasPreferredX) then old(preferredX)
                               else Width(parts[old(cursor).part], layout[i].from, old(cursor).at))
             && cursor == Landing(parts, layout[target], preferredX))
    {
      hide Layout, OnlyLine, Sound, Within, Landing, CountOn;
      var layout := LayoutText(parts, width);
      LayoutIsSound(parts, |parts|, width);
      OffsetInText(parts, cursor);
      EveryCursorHasOneLine(parts, width);
      ghost var offset := Offset(parts, cursor);
      assert HasOnlyLine(layout, offset);
      ghost var only :| OnlyLine(layout, offset, only);
      var current := CursorVisualLine(layout, Offset(parts, cursor));
      if delta < 0 && current == 0 { return true; }
      if delta > 0 && current == |layout| - 1 && browsing { return true; }
      CursorWithin(parts, layout[current], cursor, layout, current);
      var target := Max(0, Min(|layout| - 1, current + delta));
      var line := parts[cursor.part];
      var column := WidthWithin(parts, layout[current], cursor);
      if hasPreferredX {
        column := preferredX;
      } else {
        preferredX, hasPreferredX := column, true;
      }
      cursor := Land(parts, layout[target], column);
      history := false;
    }
  }

  method WidthWithin(parts: seq<Line>, v: Visual, p: Place) returns (column: nat)
    requires Within(parts, v, p)
    ensures column == Width(parts[p.part], v.from, p.at)
  {
    column := VisibleWidth(parts[p.part], v.from, p.at);
  }

  method Land(parts: seq<Line>, v: Visual, column: nat) returns (p: Place)
    requires Sound(parts, v)
    ensures p == Landing(parts, v, column) && InText(parts, p)
  {
    var index, bytes := ByteAtColumn(parts[v.part], v.from, v.to_, column);
    p := Place(v.part, index);
  }

  lemma OffsetInText(parts: seq<Line>, p: Place)
    requires parts != [] && InText(parts, p)
    ensures 0 <= Offset(parts, p) <= TextSize(parts)
  {
    BytesGrow(parts[p.part], p.at, |parts[p.part]|);
    if p.part < |parts| - 1 { StartsGrow(parts, p.part, |parts| - 1); }
  }

  // The line a cursor lies on is a line of its own logical line.
  lemma CursorWithin(parts: seq<Line>, v: Visual, p: Place, layout: seq<Visual>, i: int)
    requires InText(parts, p) && Sound(parts, v) && OnlyLine(layout, Offset(parts, p), i) && v == layout[i]
    ensures Within(parts, v, p)
  {
    hide PartStart;
    var cursor := Offset(parts, p);
    assert OnLine(v, cursor);
    BytesGrow(parts[p.part], p.at, |parts[p.part]|);
    BytesGrow(parts[v.part], v.to_, |parts[v.part]|);
    if p.part < v.part { StartsGrow(parts, p.part, v.part); }
    if v.part < p.part { StartsGrow(parts, v.part, p.part); }
    if p.at < v.from { BytesGrow(parts[p.part], p.at, v.from); }
    if v.to_ < p.at { BytesGrow(parts[p.part], v.to_, p.at); }
  }
}
