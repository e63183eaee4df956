// The regular-screen renderer (internal/tui/main_screen.go). A frame is either
// repainted from scratch or patched: the changed rows are rewritten relative to
// the cursor row and viewport top the renderer believes the terminal has.

module MainScreen {
  import opened Options
  import opened TerminalModel

  /** The renderer's memory of the last frame. Sizes of zero mean "no frame yet". */
  datatype Tracked = Tracked(
    lines: seq<string>, width: int, height: int,
    cursorRow: nat, hardwareRow: nat, maxRendered: nat, viewportTop: nat)

  const INITIAL := Tracked([], 0, 0, 0, 0, 0, 0)

  datatype Cursor = Hidden | At(row: nat, col: nat)

  /** One call: the composed lines and cursor, the columns the terminal reports,
      and the settings the renderer reads. */
  datatype Frame = Frame(
    lines: seq<string>, cursor: Cursor, columns: nat,
    showCursor: bool, clearOnShrink: bool, hasOverlays: bool)
  {
    /** The cursor marker is only looked for in the last `height` lines. */
    ghost predicate CursorInTail(height: nat) {
      cursor.At? ==> Max(0, |lines| - height) <= cursor.row < |lines|
    }
  }

  // ---------------------------------------------------------------- the specification

  function NewLine(s: Screen): Screen { Step(Step(s, CarriageReturn), LineFeed) }

  function NewLines(s: Screen, n: nat): Screen {
    if n == 0 then s else NewLine(NewLines(s, n - 1))
  }

  function MoveBy(s: Screen, delta: int): Screen {
    if delta > 0 then Step(s, CursorDown(delta))
    else if delta < 0 then Step(s, CursorUp(-delta))
    else s
  }

  function ClearAll(s: Screen): Screen {
    Step(Step(Step(s, EraseDisplay), CursorHome), EraseScrollback)
  }

  /** Prints the first k lines, one below the other. */
  function PrintLines(s: Screen, lines: seq<string>, k: nat): Screen
    requires k <= |lines|
  {
    if k == 0 then s
    else
      var above := PrintLines(s, lines, k - 1);
      Step(if k > 1 then NewLine(above) else above, Print(lines[k - 1]))
  }

  /** Rewrites rows first .. k - 1 in place, erasing each row before printing it. */
  function RewriteLines(s: Screen, lines: seq<string>, first: nat, k: nat): Screen
    requires first <= k <= |lines|
    decreases k
  {
    if k == first then s
    else
      RewriteOne(RewriteLines(s, lines, first, k - 1), lines[k - 1], k - 1 > first)
  }

  function RewriteOne(s: Screen, line: string, below: bool): Screen {
    Step(Step(if below then NewLine(s) else s, EraseLine), Print(line))
  }

  /** Erases n rows from the cursor row down, leaving the cursor on the last one. */
  function EraseRows(s: Screen, n: nat): Screen {
    if n == 0 then s
    else
      var above := if n == 1 then s else Step(EraseRows(s, n - 1), CursorDown(1));
      Step(Step(above, CarriageReturn), EraseLine)
  }

  /** Erases the n rows below the cursor row. */
  function EraseBelow(s: Screen, n: nat): Screen {
    if n == 0 then s else Step(NewLine(EraseBelow(s, n - 1)), EraseLine)
  }

  function CursorTarget(cursor: Cursor, total: nat): nat
    requires cursor.At? && total > 0
  {
    Max(0, Min(cursor.row, total - 1))
  }

  /** Moves the cursor to where the frame wants it; the row is counted from the
      row the renderer believes the cursor is on. */
  function PositionCursor(t: Tracked, s: Screen, f: Frame): (Tracked, Screen) {
    if f.cursor.Hidden? || |f.lines| == 0 then (t, Step(s, ShowCursor(false)))
    else
      var target := CursorTarget(f.cursor, |f.lines|);
      var moved := Step(MoveBy(s, target - t.hardwareRow), CursorColumn(f.cursor.col + 1));
      (t.(hardwareRow := target), Step(moved, ShowCursor(f.showCursor)))
  }

  /** Places the cursor and remembers the frame. */
  function Finish(t: Tracked, s: Screen, f: Frame): (Tracked, Screen) {
    var (t', s') := PositionCursor(t, s, f);
    (t'.(lines := f.lines, width := f.columns, height := s.height), s')
  }

  function Repainted(t: Tracked, height: nat, f: Frame, clear: bool): Tracked {
    var n := |f.lines|;
    t.(cursorRow := Max(0, n - 1), hardwareRow := Max(0, n - 1),
       maxRendered := if clear then n else Max(t.maxRendered, n),
       viewportTop := Max(0, Max(height, n) - height))
  }

  function Repaint(t: Tracked, s: Screen, f: Frame, clear: bool): (Tracked, Screen) {
    Finish(Repainted(t, s.height, f, clear),
           PrintLines(if clear then ClearAll(s) else s, f.lines, |f.lines|), f)
  }

  // The first and last row at which two line lists differ, below a bound.
  function FirstChanged(a: seq<string>, b: seq<string>, n: nat): int {
    if n == 0 then -1
    else if FirstChanged(a, b, n - 1) >= 0 then FirstChanged(a, b, n - 1)
    else if LineAt(a, n - 1) != LineAt(b, n - 1) then n - 1
    else -1
  }

  function LastChanged(a: seq<string>, b: seq<string>, n: nat): int {
    if n == 0 then -1
    else if LineAt(a, n - 1) != LineAt(b, n - 1) then n - 1
    else LastChanged(a, b, n - 1)
  }

  /** The rows to rewrite: appended lines always count as changed. */
  function ChangedRange(old_: seq<string>, new_: seq<string>): (int, int) {
    var n := Max(|old_|, |new_|);
    var first, last := FirstChanged(old_, new_, n), LastChanged(old_, new_, n);
    if |new_| > |old_| then (if first == -1 then |old_| else first, |new_| - 1) else (first, last)
  }

  predicate SizeChanged(t: Tracked, height: nat, columns: nat) {
    (t.width != 0 && t.width != columns) || (t.height != 0 && t.height != height)
  }

  /** The conditions under which the source gives up on patching. The last three
      are the rows a patch would have to reach but cannot. */
  predicate NeedsClear(t: Tracked, height: nat, f: Frame) {
    SizeChanged(t, height, f.columns) || (t.lines != [] && (
    || (f.clearOnShrink && |f.lines| < t.maxRendered && !f.hasOverlays)
    || var first := ChangedRange(t.lines, f.lines).0;
       first >= 0 &&
       if first >= |f.lines| then
         || Max(0, |f.lines| - 1) < t.viewportTop
         || |t.lines| - |f.lines| > height
       else first < t.viewportTop))
  }

  /** Column zero of the first row below the shortened content. */
  function TruncateStart(s: Screen, hardwareRow: nat, newCount: nat): Screen {
    var at := Step(MoveBy(s, Max(0, newCount - 1) - hardwareRow), CarriageReturn);
    if newCount != 0 then Step(at, CursorDown(1)) else at
  }

  /** Content only got shorter: erase the rows below the new end and come back. */
  function TruncateRows(s: Screen, hardwareRow: nat, oldCount: nat, newCount: nat): Screen
    requires newCount < oldCount
  {
    var extra := oldCount - newCount;
    MoveBy(EraseRows(TruncateStart(s, hardwareRow, newCount), extra),
           -(extra - 1 + (if newCount != 0 then 1 else 0)))
  }

  function Truncate(t: Tracked, s: Screen, f: Frame): (Tracked, Screen)
    requires |f.lines| < |t.lines|
  {
    var target := Max(0, |f.lines| - 1);
    Finish(t.(cursorRow := target, hardwareRow := target),
           TruncateRows(s, t.hardwareRow, |t.lines|, |f.lines|), f)
  }

  /** Lines that follow everything already on the screen start on a new row. */
  predicate AppendsAfter(t: Tracked, f: Frame, first: nat) {
    |f.lines| > |t.lines| && first == |t.lines| && first > 0
  }

  /** How far a row lies below the viewport. */
  function Overshoot(t: Tracked, height: nat, target: nat): nat {
    Max(0, target - (t.viewportTop + height - 1))
  }

  /** Brings the cursor to a row, scrolling down to it if it lies below the viewport. */
  function Reach(t: Tracked, s: Screen, target: nat): Screen {
    var scroll := Overshoot(t, s.height, target);
    if scroll > 0 then
      NewLines(MoveBy(s, s.height - 1 - Max(0, Min(s.height - 1, t.hardwareRow - t.viewportTop))), scroll)
    else MoveBy(s, target - t.hardwareRow)
  }

  function PatchTarget(t: Tracked, f: Frame, first: nat): nat {
    if AppendsAfter(t, f, first) then first - 1 else first
  }

  /** Column zero of the first row to rewrite. */
  function GoTo(t: Tracked, s: Screen, f: Frame, first: nat): Screen {
    var at := Reach(t, s, PatchTarget(t, f, first));
    if AppendsAfter(t, f, first) then NewLine(at) else Step(at, CarriageReturn)
  }

  /** Rewrites rows first .. end and erases what is left below a shorter frame. */
  function PatchRows(s: Screen, oldCount: nat, lines: seq<string>, first: nat, end: nat): Screen
    requires first <= end < |lines|
  {
    var painted := RewriteLines(s, lines, first, end + 1);
    if oldCount > |lines| then EraseTail(painted, |lines| - 1 - end, oldCount - |lines|) else painted
  }

  /** Goes down to the last line, erases the rows below it, and comes back. */
  function EraseTail(s: Screen, down: nat, extra: nat): Screen {
    MoveBy(EraseBelow(MoveBy(s, down), extra), 0 - extra)
  }

  /** The row the cursor is left on, and the renderer's memory of the patch. */
  function FinalRow(oldCount: nat, newCount: nat, end: nat): nat
    requires newCount > 0
  {
    if oldCount > newCount then newCount - 1 else end
  }

  function Patched(t: Tracked, height: nat, f: Frame, first: nat, end: nat): Tracked
    requires f.lines != []
  {
    var final := FinalRow(|t.lines|, |f.lines|, end);
    var scroll := Overshoot(t, height, PatchTarget(t, f, first));
    t.(cursorRow := |f.lines| - 1, hardwareRow := final,
       maxRendered := Max(t.maxRendered, |f.lines|),
       viewportTop := Max(t.viewportTop + scroll, final - height + 1))
  }

  function Patch(t: Tracked, s: Screen, f: Frame, first: nat, last: nat): (Tracked, Screen)
    requires first < |f.lines| && first <= last
  {
    var end := Min(last, |f.lines| - 1);
    Finish(Patched(t, s.height, f, first, end),
           PatchRows(GoTo(t, s, f, first), |t.lines|, f.lines, first, end), f)
  }

  /** One frame. */
  function Render(t: Tracked, s: Screen, f: Frame): (Tracked, Screen) {
    if NeedsClear(t, s.height, f) then Repaint(t, s, f, true)
    else if t.lines == [] then Repaint(t, s, f, false)
    else
      var (first, last) := ChangedRange(t.lines, f.lines);
      if first == -1 then
        var (t', s') := PositionCursor(t, s, f);
        (t'.(height := s.height), s')
      else if first >= |f.lines| then
        RangeBounds(t.lines, f.lines);
        Truncate(t, s, f)
      else
        RangeBounds(t.lines, f.lines);
        Patch(t, s, f, first, last)
  }

  // ---------------------------------------------------------------- the changed range

  lemma FirstChangedIsFirst(a: seq<string>, b: seq<string>, n: nat)
    ensures var first := FirstChanged(a, b, n);
      && -1 <= first < n
      && (first == -1 ==> forall i :: 0 <= i < n ==> LineAt(a, i) == LineAt(b, i))
      && (first >= 0 ==> LineAt(a, first) != LineAt(b, first) &&
                         forall i :: 0 <= i < first ==> LineAt(a, i) == LineAt(b, i))
  {
  }

  lemma LastChangedIsLast(a: seq<string>, b: seq<string>, n: nat)
    ensures var last := LastChanged(a, b, n);
      && -1 <= last < n
      && (last >= 0 ==> LineAt(a, last) != LineAt(b, last))
      && forall i :: last < i < n ==> LineAt(a, i) == LineAt(b, i)
  {
  }

  /** Rows outside the changed range hold the same line in both frames. */
  lemma RangeBounds(a: seq<string>, b: seq<string>)
    ensures var (first, last) := ChangedRange(a, b);
      && (first == -1 ==> |b| <= |a| && forall i :: LineAt(a, i) == LineAt(b, i))
      && (first != -1 ==> 0 <= first <= last < Max(|a|, |b|))
      && (first != -1 ==> forall i :: i < first || last < i ==> LineAt(a, i) == LineAt(b, i))
      && (first >= |b| ==> |b| < |a|)
      && (|b| > |a| ==> last == |b| - 1)
  {
    FirstChangedIsFirst(a, b, Max(|a|, |b|));
    LastChangedIsLast(a, b, Max(|a|, |b|));
  }

  // ---------------------------------------------------------------- what the terminal shows

  /** The rows and the viewport are known, wherever the cursor may be. */
  ghost predicate ContentInSync(t: Tracked, s: Screen) {
    && s.Valid()
    && s.Shows(t.lines)
    && s.top == t.viewportTop <= Max(0, |t.lines| - 1)
    && |t.lines| <= s.top + s.height
    && |t.lines| <= t.maxRendered && t.cursorRow == Max(0, |t.lines| - 1)
    && (t.lines == [] ==> s.row == s.col == 0)
    && (t.lines != [] ==> t.width != 0 && t.height != 0)
  }

  /** The renderer knows the terminal: every row, the viewport, and the cursor. */
  ghost predicate InSync(t: Tracked, s: Screen) {
    ContentInSync(t, s) && s.row == t.hardwareRow
  }

  /** The screen shows the first k lines and the cursor is on the last of them. */
  ghost predicate Printed(s: Screen, lines: seq<string>, k: nat)
    requires k <= |lines|
  {
    && s.Valid()
    && s.row == Max(0, k - 1)
    && s.top == Max(0, k - s.height)
    && (k == 0 ==> s.col == 0)
    && forall i: nat :: s.rows(i) == if i < k then Text(lines[i]) else BLANK
  }

  lemma NewLineMoves(s: Screen)
    requires s.Valid()
    ensures var p := NewLine(s);
      && p.Valid() && p.height == s.height && p.rows == s.rows
      && p.row == s.row + 1 && p.col == 0 && p.top == Max(s.top, p.row - s.height + 1)
  {
  }

  lemma EraseAndPrint(s: Screen, line: string)
    requires s.Valid() && s.col == 0
    ensures var p := Step(Step(s, EraseLine), Print(line));
      && p.Valid() && p.height == s.height && p.row == s.row && p.top == s.top
      && forall i: nat :: p.rows(i) == if i == s.row then Text(line) else s.rows(i)
  {
  }

  lemma PrintOnBlank(s: Screen, line: string)
    requires s.Valid() && s.col == 0 && s.rows(s.row) == BLANK
    ensures var p := Step(s, Print(line));
      && p.Valid() && p.height == s.height && p.row == s.row && p.top == s.top
      && forall i: nat :: p.rows(i) == if i == s.row then Text(line) else s.rows(i)
  {
  }

  lemma {:induction false} PrintLinesPrints(s: Screen, lines: seq<string>, k: nat)
    requires k <= |lines| && Printed(s, lines, 0)
    ensures PrintLines(s, lines, k).height == s.height
    ensures Printed(PrintLines(s, lines, k), lines, k)
  {
    hide Step, NewLine;
    if k > 0 {
      PrintLinesPrints(s, lines, k - 1);
      var above := PrintLines(s, lines, k - 1);
      if k > 1 {
        NewLineMoves(above);
      }
      PrintOnBlank(if k > 1 then NewLine(above) else above, lines[k - 1]);
    }
  }

  lemma ClearAllBlanks(s: Screen, lines: seq<string>)
    requires s.Valid()
    ensures ClearAll(s).height == s.height && Printed(ClearAll(s), lines, 0)
  {
  }

  /** Rewriting replaces exactly the rows it visits and scrolls only as far as
      the last of them requires. */
  lemma {:induction false} RewriteLinesRewrites(s: Screen, lines: seq<string>, first: nat, k: nat)
    requires first < k <= |lines|
    requires s.Valid() && s.row == first && s.col == 0
    ensures var p := RewriteLines(s, lines, first, k);
      && p.Valid() && p.height == s.height
      && p.row == k - 1 && p.top == Max(s.top, k - s.height)
      && forall i: nat :: p.rows(i) == if first <= i < k then Text(lines[i]) else s.rows(i)
    decreases k
  {
    hide Step, NewLine;
    if k - 1 > first {
      RewriteLinesRewrites(s, lines, first, k - 1);
      var above := RewriteLines(s, lines, first, k - 1);
      NewLineMoves(above);
      EraseAndPrint(NewLine(above), lines[k - 1]);
    } else {
      assert RewriteLines(s, lines, first, k - 1) == s;
      EraseAndPrint(s, lines[k - 1]);
    }
  }

  lemma {:induction false} EraseRowsErases(s: Screen, n: nat)
    requires n > 0 && s.Valid() && s.row + n <= s.top + s.height
    ensures var p := EraseRows(s, n);
      && p.Valid() && p.height == s.height && p.top == s.top
      && p.row == s.row + n - 1 && p.col == 0
      && forall i: nat :: p.rows(i) == if s.row <= i < s.row + n then BLANK else s.rows(i)
  {
    if n > 1 {
      EraseRowsErases(s, n - 1);
    }
  }

  lemma {:induction false} EraseBelowErases(s: Screen, n: nat)
    requires s.Valid() && s.row + n < s.top + s.height
    ensures var p := EraseBelow(s, n);
      && p.Valid() && p.height == s.height && p.top == s.top && p.row == s.row + n
      && forall i: nat :: p.rows(i) == if s.row < i <= s.row + n then BLANK else s.rows(i)
  {
    if n > 0 {
      EraseBelowErases(s, n - 1);
    }
  }

  lemma {:induction false} NewLinesScroll(s: Screen, n: nat)
    requires s.Valid() && s.row == s.top + s.height - 1
    ensures var p := NewLines(s, n);
      && p.Valid() && p.height == s.height && p.rows == s.rows
      && p.row == s.row + n && p.top == s.top + n
      && (n > 0 ==> p.col == 0)
  {
    if n > 0 {
      NewLinesScroll(s, n - 1);
    }
  }

  /** Where the cursor ends up: on its target unless the target is above the viewport. */
  predicate CursorReachable(f: Frame, top: nat) {
    f.cursor.Hidden? || |f.lines| == 0 || CursorTarget(f.cursor, |f.lines|) >= top
  }

  /** The cursor stands where the frame wants it: in its column, and on its row or on
      the first one of the viewport if that row is above it. */
  ghost predicate CursorPlaced(s: Screen, f: Frame) {
    f.cursor.At? && f.lines != [] ==>
      s.col == f.cursor.col && s.row == Max(s.top, Min(f.cursor.row, |f.lines| - 1))
  }

  lemma MoveByTracks(s: Screen, target: nat)
    requires s.Valid() && target < s.top + s.height
    ensures var p := MoveBy(s, target - s.row);
      && p == s.(row := p.row) && p.Valid() && (p.row == target <==> target >= s.top)
      && (target < s.top ==> p.row == s.top)
  {
  }

  lemma {:induction false} PositionCursorTracks(t: Tracked, s: Screen, f: Frame)
    requires s.Valid() && s.row == t.hardwareRow && |f.lines| <= s.top + s.height
    ensures var (t', s') := PositionCursor(t, s, f);
      && s'.Valid() && s'.height == s.height && s'.top == s.top && s'.rows == s.rows
      && t' == t.(hardwareRow := t'.hardwareRow)
      && (if CursorReachable(f, s.top) then s'.row == t'.hardwareRow else Lost(t', s'))
      && (f.cursor.Hidden? || |f.lines| == 0 ==> s'.row == s.row && s'.col == s.col)
      && CursorPlaced(s', f)
      && (s'.visible <==> f.cursor.At? && |f.lines| > 0 && f.showCursor)
  {
    hide MoveBy;
    if f.cursor.At? && |f.lines| > 0 {
      MoveByTracks(s, CursorTarget(f.cursor, |f.lines|));
    }
  }

  // ---------------------------------------------------------------- one frame

  /** The cursor is held at the top of the viewport, below where it is believed. */
  ghost predicate Lost(t: Tracked, s: Screen) { s.row == s.top > t.hardwareRow }

  /** What a frame must achieve: its lines on the screen, its size remembered, the
      viewport tracked, and the cursor placed, tracked if its row was reachable and lost
      if not. */
  ghost predicate Drawn(t: Tracked, s: Screen, f: Frame, reachable: bool) {
    && s.Shows(f.lines)
    && ContentInSync(t, s)
    && (if reachable then s.row == t.hardwareRow else Lost(t, s))
    && CursorPlaced(s, f)
    && t.width == f.columns && t.height == s.height
    && (s.visible <==> f.cursor.At? && f.lines != [] && f.showCursor)
  }

  /** The common end of every path: once the rows and the viewport are right,
      placing the cursor completes the frame. */
  lemma {:induction false} FinishDraws(t: Tracked, s: Screen, f: Frame)
    requires s.Valid() && s.Shows(f.lines) && s.row == t.hardwareRow && s.top == t.viewportTop
    requires |f.lines| <= s.top + s.height && |f.lines| <= t.maxRendered && f.columns > 0
    requires t.cursorRow == Max(0, |f.lines| - 1)
    requires s.top <= Max(0, |f.lines| - 1) && (f.lines == [] ==> s.row == s.col == 0)
    ensures var (t', s') := Finish(t, s, f);
      s'.height == s.height && s'.top == s.top && Drawn(t', s', f, CursorReachable(f, s.top))
  {
    PositionCursorTracks(t, s, f);
  }

  lemma {:induction false} RepaintDraws(t: Tracked, s: Screen, f: Frame, clear: bool)
    requires s.Valid() && f.CursorInTail(s.height) && f.columns > 0
    requires clear || (InSync(t, s) && t.lines == [])
    ensures var (t', s') := Repaint(t, s, f, clear); s'.height == s.height && Drawn(t', s', f, true)
  {
    hide PrintLines, ClearAll, Finish, Drawn;
    ClearAllBlanks(s, f.lines);
    PrintLinesPrints(if clear then ClearAll(s) else s, f.lines, |f.lines|);
    FinishDraws(Repainted(t, s.height, f, clear),
                PrintLines(if clear then ClearAll(s) else s, f.lines, |f.lines|), f);
  }

  lemma MoveByReaches(s: Screen, target: nat)
    requires s.Valid() && s.top <= target < s.top + s.height
    ensures MoveBy(s, target - s.row) == s.(row := target)
  {
  }

  lemma {:induction false} TruncateRowsErases(s: Screen, oldCount: nat, newCount: nat)
    requires s.Valid() && newCount < oldCount <= s.top + s.height
    requires oldCount - newCount <= s.height && s.top <= Max(0, newCount - 1)
    ensures var p := TruncateRows(s, s.row, oldCount, newCount);
      && p.Valid() && p.height == s.height && p.top == s.top && p.row == Max(0, newCount - 1) && p.col == 0
      && forall i: nat :: p.rows(i) == if newCount <= i < oldCount then BLANK else s.rows(i)
  {
    hide EraseRows, InSync, MoveBy;
    var target := Max(0, newCount - 1);
    MoveByReaches(s, target);
    var first := s.(row := newCount, col := 0);
    assert TruncateStart(s, s.row, newCount) == first;
    EraseRowsErases(first, oldCount - newCount);
    MoveByReaches(EraseRows(first, oldCount - newCount), target);
  }

  lemma {:induction false} TruncateDraws(t: Tracked, s: Screen, f: Frame)
    requires InSync(t, s) && f.columns > 0
    requires |f.lines| < |t.lines| && t.viewportTop <= Max(0, |f.lines| - 1)
    requires |t.lines| - |f.lines| <= s.height
    requires forall i :: i < |f.lines| ==> LineAt(t.lines, i) == LineAt(f.lines, i)
    ensures var (t', s') := Truncate(t, s, f);
      s'.height == s.height && Drawn(t', s', f, CursorReachable(f, t.viewportTop))
  {
    TruncateRowsErases(s, |t.lines|, |f.lines|);
    var p := TruncateRows(s, s.row, |t.lines|, |f.lines|);
    forall i: nat ensures p.rows(i) == Text(LineAt(f.lines, i)) {
      assert s.rows(i) == Text(LineAt(t.lines, i));
    }
    var target := Max(0, |f.lines| - 1);
    FinishDraws(t.(cursorRow := target, hardwareRow := target), p, f);
  }

  lemma {:induction false} GoToArrives(t: Tracked, s: Screen, f: Frame, first: nat)
    requires InSync(t, s) && t.viewportTop <= first
    requires first <= |t.lines| ==> first < t.viewportTop + s.height || AppendsAfter(t, f, first)
    ensures var p := GoTo(t, s, f, first);
      var scroll := Overshoot(t, s.height, PatchTarget(t, f, first));
      && p.Valid() && p.height == s.height && p.rows == s.rows
      && p.row == first && p.col == 0
      && p.top == Max(t.viewportTop + scroll, first - s.height + 1)
  {
    hide MoveBy, NewLines;
    var target := PatchTarget(t, f, first);
    var scroll := Overshoot(t, s.height, target);
    if scroll > 0 {
      var bottom := s.top + s.height - 1;
      MoveByReaches(s, bottom);
      NewLinesScroll(s.(row := bottom), scroll);
    } else {
      MoveByReaches(s, target);
    }
  }

  lemma {:induction false} EraseTailErases(s: Screen, down: nat, extra: nat)
    requires s.Valid() && s.row + down + extra < s.top + s.height
    ensures var p := EraseTail(s, down, extra);
      && p.Valid() && p.height == s.height && p.row == s.row + down && p.top == s.top
      && forall i: nat :: p.rows(i) == if s.row + down < i <= s.row + down + extra then BLANK else s.rows(i)
  {
    var last := s.row + down;
    MoveByReaches(s, last);
    var below := EraseBelow(s.(row := last), extra);
    EraseBelowErases(s.(row := last), extra);
    MoveByReaches(below, last);
    assert EraseTail(s, down, extra) == below.(row := last);
  }

  lemma {:induction false} PatchRowsRewrites(s: Screen, oldCount: nat, lines: seq<string>, first: nat, end: nat)
    requires s.Valid() && s.row == first && s.col == 0
    requires first <= end < |lines|
    requires oldCount > |lines| ==> oldCount <= s.top + s.height
    ensures var p := PatchRows(s, oldCount, lines, first, end);
      && p.Valid() && p.height == s.height
      && p.row == FinalRow(oldCount, |lines|, end) && p.top == Max(s.top, p.row - s.height + 1)
      && forall i: nat :: p.rows(i) == if first <= i <= end then Text(lines[i])
                                       else if |lines| <= i < oldCount then BLANK else s.rows(i)
  {
    RewriteLinesRewrites(s, lines, first, end + 1);
    if oldCount > |lines| {
      var painted := RewriteLines(s, lines, first, end + 1);
      assert painted.top == s.top;
      EraseTailErases(painted, |lines| - 1 - end, oldCount - |lines|);
    }
  }

  lemma {:induction false} PatchShows(t: Tracked, s: Screen, f: Frame, first: nat, last: nat)
    requires InSync(t, s) && t.lines != []
    requires t.viewportTop <= first < |f.lines| && first <= last
    requires |f.lines| > |t.lines| ==> last == |f.lines| - 1
    requires |f.lines| <= |t.lines| ==> last < |t.lines|
    requires forall i :: i < first || last < i ==> LineAt(t.lines, i) == LineAt(f.lines, i)
    ensures var end := Min(last, |f.lines| - 1);
      var p := PatchRows(GoTo(t, s, f, first), |t.lines|, f.lines, first, end);
      var t1 := Patched(t, s.height, f, first, end);
      && p.Valid() && p.height == s.height && p.Shows(f.lines)
      && p.row == t1.hardwareRow && p.top == t1.viewportTop <= |f.lines| - 1
      && |f.lines| <= p.top + p.height
  {
    hide GoTo, PatchRows;
    var end := Min(last, |f.lines| - 1);
    var start := GoTo(t, s, f, first);
    GoToArrives(t, s, f, first);
    PatchRowsRewrites(start, |t.lines|, f.lines, first, end);
    var p := PatchRows(start, |t.lines|, f.lines, first, end);
    forall i: nat ensures p.rows(i) == Text(LineAt(f.lines, i)) {
      assert s.rows(i) == Text(LineAt(t.lines, i));
    }
  }

  lemma {:induction false} PatchDraws(t: Tracked, s: Screen, f: Frame, first: nat, last: nat)
    requires InSync(t, s) && f.columns > 0 && t.lines != [] && f.CursorInTail(s.height)
    requires t.viewportTop <= first < |f.lines| && first <= last
    requires |f.lines| > |t.lines| ==> last == |f.lines| - 1
    requires |f.lines| <= |t.lines| ==> last < |t.lines|
    requires forall i :: i < first || last < i ==> LineAt(t.lines, i) == LineAt(f.lines, i)
    ensures var (t', s') := Patch(t, s, f, first, last);
      s'.height == s.height && Drawn(t', s', f, CursorReachable(f, t.viewportTop))
  {
    hide GoTo, PatchRows, Finish, Drawn;
    PatchShows(t, s, f, first, last);
    var end := Min(last, |f.lines| - 1);
    FinishDraws(Patched(t, s.height, f, first, end),
                PatchRows(GoTo(t, s, f, first), |t.lines|, f.lines, first, end), f);
  }

  lemma {:induction false} UnchangedDraws(t: Tracked, s: Screen, f: Frame)
    requires InSync(t, s) && t.lines != [] && t.width == f.columns
    requires |f.lines| <= |t.lines| && forall i :: LineAt(t.lines, i) == LineAt(f.lines, i)
    ensures var (t', s') := PositionCursor(t, s, f);
      s'.height == s.height && Drawn(t'.(height := s.height), s', f, CursorReachable(f, t.viewportTop))
  {
    hide Step;
    PositionCursorTracks(t, s, f);
    assert s.Shows(f.lines);
  }

  /** Patching only loses the cursor when the frame wants it above the viewport. */
  predicate KeepsCursor(t: Tracked, height: nat, f: Frame) {
    NeedsClear(t, height, f) || t.lines == [] || CursorReachable(f, t.viewportTop)
  }

  /** A frame has been drawn, and the terminal now has another size. */
  ghost predicate ResizedSince(t: Tracked, height: nat, columns: nat) {
    t.width > 0 && t.height > 0 && (t.width, t.height) != (columns, height)
  }

  /** Incremental repaint is correct: whatever the previous frame was, the
      terminal shows exactly the new lines and nothing below them. After a size
      change the terminal may hold anything at all. */
  lemma {:induction false} RenderDraws(t: Tracked, s: Screen, f: Frame)
    requires s.Valid() && f.CursorInTail(s.height) && f.columns > 0
    requires ResizedSince(t, s.height, f.columns) || InSync(t, s)
    ensures var (t', s') := Render(t, s, f);
      s'.height == s.height && Drawn(t', s', f, KeepsCursor(t, s.height, f))
  {
    hide Patch, Truncate, Repaint, PositionCursor, ChangedRange, Drawn;
    if NeedsClear(t, s.height, f) {
      RepaintDraws(t, s, f, true);
    } else if t.lines == [] {
      RepaintDraws(t, s, f, false);
    } else {
      RangeBounds(t.lines, f.lines);
      var (first, last) := ChangedRange(t.lines, f.lines);
      if first == -1 {
        UnchangedDraws(t, s, f);
      } else if first >= |f.lines| {
        TruncateDraws(t, s, f);
      } else {
        PatchDraws(t, s, f, first, last);
      }
    }
  }

  // ---------------------------------------------------------------- whole runs

  /** A frame, possibly after a resize that left the terminal holding anything. */
  datatype Turn = Turn(resized: bool, reflowed: Screen, frame: Frame)

  function ScreenBefore(s: Screen, turn: Turn): Screen {
    if turn.resized then turn.reflowed else s
  }

  /** Turns the renderer can be given: sizes are positive, a cursor lies in the
      tail, and a resize leaves a size different from that of the last frame. */
  ghost predicate Admissible(t: Tracked, s: Screen, turn: Turn) {
    var before := ScreenBefore(s, turn);
    && before.Valid() && turn.frame.columns > 0 && turn.frame.CursorInTail(before.height)
    && (turn.resized ==> ResizedSince(t, before.height, turn.frame.columns))
  }

  function PlayOne(t: Tracked, s: Screen, turn: Turn): (Tracked, Screen) {
    Render(t, ScreenBefore(s, turn), turn.frame)
  }

  function Play(t: Tracked, s: Screen, turns: seq<Turn>): (Tracked, Screen)
    decreases |turns|
  {
    if turns == [] then (t, s)
    else
      var (t', s') := PlayOne(t, s, turns[0]);
      Play(t', s', turns[1..])
  }

  ghost predicate AllAdmissible(t: Tracked, s: Screen, turns: seq<Turn>)
    decreases |turns|
  {
    turns == [] ||
    (&& Admissible(t, s, turns[0])
     && (|turns| > 1 && !turns[1].resized ==>
           KeepsCursor(t, ScreenBefore(s, turns[0]).height, turns[0].frame))
     && var (t', s') := PlayOne(t, s, turns[0]);
        AllAdmissible(t', s', turns[1..]))
  }

  lemma {:induction false} OneTurnDraws(t: Tracked, s: Screen, turn: Turn)
    requires Admissible(t, s, turn) && (InSync(t, s) || turn.resized)
    ensures var (t', s') := PlayOne(t, s, turn);
      && s'.Shows(turn.frame.lines) && ContentInSync(t', s') && CursorPlaced(s', turn.frame)
      && (KeepsCursor(t, ScreenBefore(s, turn).height, turn.frame) ==> InSync(t', s'))
  {
    RenderDraws(t, ScreenBefore(s, turn), turn.frame);
  }

  /** Over every sequence of frames and resizes from a state in sync, the terminal
      ends up showing exactly the last frame's lines, the cursor in its place. Only a
      frame followed by another one at the same size has to leave its cursor reachable. */
  lemma {:induction false} EveryRunShowsItsLastFrame(t: Tracked, s: Screen, turns: seq<Turn>)
    requires turns != [] && AllAdmissible(t, s, turns)
    requires InSync(t, s) || turns[0].resized
    ensures var (t', s') := Play(t, s, turns);
      s'.Shows(turns[|turns| - 1].frame.lines) && ContentInSync(t', s') && CursorPlaced(s', turns[|turns| - 1].frame)
    decreases |turns|
  {
    hide PlayOne, KeepsCursor, Admissible, ContentInSync, CursorPlaced;
    OneTurnDraws(t, s, turns[0]);
    var (t', s') := PlayOne(t, s, turns[0]);
    var rest := turns[1..];
    if rest == [] {
      assert |turns| == 1;
    } else {
      assert rest[0] == turns[1] && rest[|rest| - 1] == turns[|turns| - 1];
      EveryRunShowsItsLastFrame(t', s', rest);
    }
  }

  function BlankScreen(height: nat): Screen { Screen((i: nat) => BLANK, 0, 0, 0, height, false) }

  lemma BlankStartIsInSync(height: nat)
    requires height > 0
    ensures InSync(INITIAL, BlankScreen(height))
  {
  }

  // ---------------------------------------------------------------- the unreachable cursor

  /** A frame that may follow at the same size. */
  ghost predicate MayFollow(t: Tracked, s: Screen, g: Frame) {
    t.width == g.columns > 0 && t.height == s.height && g.CursorInTail(s.height)
  }

  ghost predicate DrawsRight(t: Tracked, s: Screen, g: Frame) { Render(t, s, g).1.Shows(g.lines) }

  // The lines with the first row of the viewport changed, and nothing else.
  function TopChanged(t: Tracked, top: nat): Frame
    requires top < |t.lines| && t.width > 0
  {
    Frame(t.lines[top := t.lines[top] + "x"], Hidden, t.width, false, false, false)
  }

  lemma TopChangedRange(t: Tracked, top: nat)
    requires top < |t.lines| && t.width > 0
    ensures ChangedRange(t.lines, TopChanged(t, top).lines) == (top as int, top as int)
  {
    var g := TopChanged(t, top);
    hide FirstChanged, LastChanged;
    FirstChangedIsFirst(t.lines, g.lines, |t.lines|);
    LastChangedIsLast(t.lines, g.lines, |t.lines|);
    assert LineAt(t.lines, top) != LineAt(g.lines, top);
    assert forall i: int :: i != top ==> LineAt(t.lines, i) == LineAt(g.lines, i);
  }

  // From a lost cursor the patch of the top row starts on another row.
  lemma LostStartsElsewhere(t: Tracked, s: Screen)
    requires ContentInSync(t, s) && Lost(t, s) && s.height > 1 && t.width > 0
    ensures s.top < |t.lines|
    ensures var start := GoTo(t, s, TopChanged(t, s.top), s.top); start.row != s.top && start.rows == s.rows
  {
  }

  lemma PatchOneRow(start: Screen, lines: seq<string>, top: nat)
    requires top < |lines| && start.row != top
    ensures PatchRows(start, |lines|, lines, top, top).rows(top) == start.rows(top)
  {
    assert RewriteLines(start, lines, top, top) == start;
  }

  lemma FinishKeepsRows(t: Tracked, s: Screen, f: Frame)
    ensures Finish(t, s, f).1.rows == s.rows
  {
  }

  /** After a lost cursor a change of the viewport's first row is drawn wrong: it goes
      to another row and leaves the old line standing. */
  lemma LostCursorSpoilsTheNextFrame(t: Tracked, s: Screen)
    requires ContentInSync(t, s) && Lost(t, s) && s.height > 1 && t.height == s.height && t.width > 0
    ensures s.top < |t.lines| && MayFollow(t, s, TopChanged(t, s.top)) && !DrawsRight(t, s, TopChanged(t, s.top))
  {
    hide GoTo, ChangedRange, Finish, PatchRows;
    LostStartsElsewhere(t, s);
    var top := s.top;
    var g := TopChanged(t, top);
    TopChangedRange(t, top);
    assert Render(t, s, g) == Patch(t, s, g, top, top);
    var start := GoTo(t, s, g, top);
    PatchOneRow(start, g.lines, top);
    FinishKeepsRows(Patched(t, s.height, g, top, top), PatchRows(start, |t.lines|, g.lines, top, top), g);
    assert s.rows(top) == Text(LineAt(t.lines, top));
    assert Render(t, s, g).1.rows(top) == Text(t.lines[top]);
  }

  // A viewport of one row leaves the cursor nowhere else to be.
  lemma OneRowStays(s: Screen, delta: int)
    requires s.Valid() && s.height == 1
    ensures MoveBy(s, delta) == s
  {
  }

  function Found(t: Tracked, s: Screen): Tracked { t.(hardwareRow := s.row) }

  lemma OneRowGoTo(t: Tracked, s: Screen, f: Frame, first: nat)
    requires s.Valid() && s.height == 1
    ensures GoTo(t, s, f, first) == GoTo(Found(t, s), s, f, first)
  {
    hide MoveBy, NewLines, Step;
    var target := PatchTarget(t, f, first);
    OneRowStays(s, s.height - 1 - Max(0, Min(s.height - 1, t.hardwareRow - t.viewportTop)));
    OneRowStays(s, s.height - 1 - Max(0, Min(s.height - 1, s.row - t.viewportTop)));
    OneRowStays(s, target - t.hardwareRow);
    OneRowStays(s, target - s.row);
  }

  // In a viewport of one row the believed cursor row makes no difference.
  lemma OneRowRenders(t: Tracked, s: Screen, f: Frame)
    requires s.Valid() && s.height == 1
    ensures Render(t, s, f).1 == Render(Found(t, s), s, f).1
  {
    hide MoveBy, ChangedRange, GoTo, PatchRows, Step, PrintLines, ClearAll, EraseRows;
    assert NeedsClear(t, s.height, f) == NeedsClear(Found(t, s), s.height, f);
    if !NeedsClear(t, s.height, f) && t.lines != [] {
      RangeBounds(t.lines, f.lines);
      var (first, last) := ChangedRange(t.lines, f.lines);
      if first == -1 {
        if f.cursor.At? && |f.lines| > 0 {
          OneRowStays(s, CursorTarget(f.cursor, |f.lines|) - t.hardwareRow);
          OneRowStays(s, CursorTarget(f.cursor, |f.lines|) - s.row);
        }
      } else if first >= |f.lines| {
        OneRowStays(s, Max(0, |f.lines| - 1) - t.hardwareRow);
        OneRowStays(s, Max(0, |f.lines| - 1) - s.row);
      } else {
        OneRowGoTo(t, s, f, first);
      }
    }
  }

  /** With the content in step and the cursor known or lost, every next frame of the
      same size is drawn right exactly when the cursor is known or the viewport has
      a single row. */
  lemma NextFramesAreRight(t: Tracked, s: Screen)
    requires ContentInSync(t, s) && t.width > 0 && t.height == s.height && (s.row == t.hardwareRow || Lost(t, s))
    ensures (forall g :: MayFollow(t, s, g) ==> DrawsRight(t, s, g)) <==> s.row == t.hardwareRow || s.height == 1
  {
    hide Render, ContentInSync, DrawsRight;
    if s.row == t.hardwareRow || s.height == 1 {
      forall g | MayFollow(t, s, g) ensures DrawsRight(t, s, g) { KnownDrawsRight(t, s, g); }
    } else {
      SizeIsPositive(t, s);
      LostCursorSpoilsTheNextFrame(t, s);
    }
  }

  lemma SizeIsPositive(t: Tracked, s: Screen)
    requires ContentInSync(t, s)
    ensures s.height > 0 && s.Valid()
  {
  }

  lemma KnownDrawsRight(t: Tracked, s: Screen, g: Frame)
    requires ContentInSync(t, s) && MayFollow(t, s, g) && (s.row == t.hardwareRow || s.height == 1)
    ensures DrawsRight(t, s, g)
  {
    hide Render;
    if s.height == 1 { OneRowRenders(t, s, g); }
    RenderDraws(Found(t, s), s, g);
    if s.row == t.hardwareRow { assert Found(t, s) == t; }
  }

  /** Which frames are safe to follow: after one frame every frame of the same size is
      drawn right if and only if that frame keeps its cursor out of the rows above the
      viewport, or the viewport has a single row. */
  lemma SafeFramesKeepTheirCursor(t: Tracked, s: Screen, f: Frame)
    requires s.Valid() && f.CursorInTail(s.height) && f.columns > 0
    requires ResizedSince(t, s.height, f.columns) || InSync(t, s)
    ensures var (t', s') := Render(t, s, f);
      (forall g :: MayFollow(t', s', g) ==> DrawsRight(t', s', g)) <==> KeepsCursor(t, s.height, f) || s.height == 1
  {
    hide Render, ContentInSync, DrawsRight, KeepsCursor, MayFollow;
    RenderDraws(t, s, f);
    var (t', s') := Render(t, s, f);
    NextFramesAreRight(t', s');
  }

  // The same lines without the last, with the cursor on the first row looked at for it.
  function Shortened(t: Tracked, height: nat): Frame
    requires |t.lines| > height && t.width > 0
  {
    var n := |t.lines| - 1;
    Frame(t.lines[..n], At(n - height, 0), t.width, false, false, false)
  }

  lemma ShorteningPatches(t: Tracked, height: nat)
    requires |t.lines| > height > 1 && t.width > 0 && t.height == height && t.viewportTop == |t.lines| - height
    ensures !NeedsClear(t, height, Shortened(t, height))
  {
    hide FirstChanged, LastChanged;
    var f := Shortened(t, height);
    FirstChangedIsFirst(t.lines, f.lines, |t.lines|);
    assert forall i :: 0 <= i < |f.lines| ==> LineAt(t.lines, i) == LineAt(f.lines, i);
  }

  /** Lost cursors do happen: when a frame filled more than the viewport, dropping its
      last line and wanting the cursor as high as it may be leaves it out of reach. */
  lemma ShorterFramesLoseTheCursor(t: Tracked, s: Screen)
    requires InSync(t, s) && t.height == s.height && t.width > 0
    requires |t.lines| > s.height > 1 && s.top == |t.lines| - s.height
    ensures MayFollow(t, s, Shortened(t, s.height)) && !KeepsCursor(t, s.height, Shortened(t, s.height))
    ensures var (t', s') := Render(t, s, Shortened(t, s.height));
      exists g :: MayFollow(t', s', g) && !DrawsRight(t', s', g)
  {
    hide Render, NeedsClear;
    var f := Shortened(t, s.height);
    ShorteningPatches(t, s.height);
    SafeFramesKeepTheirCursor(t, s, f);
  }

  /** From a blank terminal two frames are enough, whatever the lines are. */
  lemma TwoFramesLoseTheCursor(lines: seq<string>, columns: nat, height: nat)
    requires |lines| > height > 1 && columns > 0
    ensures var (t, s) := Render(INITIAL, BlankScreen(height), Frame(lines, Hidden, columns, false, false, false));
      && InSync(t, s) && t.lines == lines && t.width > 0
      && MayFollow(t, s, Shortened(t, height)) && !KeepsCursor(t, height, Shortened(t, height))
  {
    hide Render;
    var f := Frame(lines, Hidden, columns, false, false, false);
    BlankStartIsInSync(height);
    RenderDraws(INITIAL, BlankScreen(height), f);
    FirstFrameFills(f, height);
    var (t, s) := Render(INITIAL, BlankScreen(height), f);
    ShorterFramesLoseTheCursor(t, s);
  }

  lemma FirstFrameFills(f: Frame, height: nat)
    requires |f.lines| > height > 0 && f.cursor.Hidden?
    ensures var t := Render(INITIAL, BlankScreen(height), f).0;
      t.lines == f.lines && t.viewportTop == |f.lines| - height
  {
    hide PrintLines;
  }
}
