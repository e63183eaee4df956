// The renderer object of internal/tui/main_screen.go: its fields, its output
// buffer and its loops, proved to compute MainScreen.Render.

module MainScreenRenderer {
  import opened Options
  import opened TerminalModel
  import opened MainScreen

  function MoveOps(delta: int): seq<Op> {
    if delta > 0 then [CursorDown(delta)] else if delta < 0 then [CursorUp(-delta)] else []
  }

  lemma RunMove(s: Screen, delta: int, op: Op)
    ensures Run(s, MoveOps(delta) + [op]) == Step(MoveBy(s, delta), op)
  {
    RunSnoc(s, MoveOps(delta), op);
    assert Run(s, MoveOps(delta)) == MoveBy(s, delta) by {
      assert Run(s, []) == s;
      if delta != 0 {
        assert MoveOps(delta)[..0] == [];
      }
    }
  }

  /** Collects control functions and hands them to the terminal in one write. */
  class TerminalWriter {
    const terminal: Terminal
    var buffer: seq<Op>

    constructor (terminal: Terminal)
      ensures this.terminal == terminal && Pending() == terminal.screen
    {
      this.terminal := terminal;
      buffer := [SynchronizedOutput(true)];
      new;
      RunSnoc(terminal.screen, [], SynchronizedOutput(true));
      assert [] + [SynchronizedOutput(true)] == buffer;
    }

    /** What the screen will be once everything collected has been written. */
    ghost function Pending(): Screen
      reads this, terminal
    {
      Run(terminal.screen, buffer)
    }

    method Append(op: Op)
      modifies this
      ensures Pending() == Step(old(Pending()), op)
    {
      RunSnoc(terminal.screen, buffer, op);
      buffer := buffer + [op];
    }

    method AppendNewLine()
      modifies this
      ensures Pending() == NewLine(old(Pending()))
    {
      Append(CarriageReturn);
      Append(LineFeed);
    }

    method AppendMove(delta: int)
      modifies this
      ensures Pending() == MoveBy(old(Pending()), delta)
    {
      if delta > 0 {
        Append(CursorDown(delta));
      } else if delta < 0 {
        Append(CursorUp(-delta));
      }
    }

    method Flush()
      modifies this, terminal
      ensures terminal.screen == old(Pending())
    {
      Append(SynchronizedOutput(false));
      terminal.Write(buffer);
      buffer := [];
    }
  }

  class TuiMainScreen {
    const terminal: Terminal
    var previousLines: seq<string>
    var previousWidth: int
    var previousHeight: int
    var cursorRow: nat
    var hardwareCursorRow: nat
    var maxLinesRendered: nat
    var previousViewportTop: nat

    constructor (terminal: Terminal)
      ensures this.terminal == terminal && State() == INITIAL
    {
      this.terminal := terminal;
      previousLines, previousWidth, previousHeight := [], 0, 0;
      cursorRow, hardwareCursorRow, maxLinesRendered, previousViewportTop := 0, 0, 0, 0;
    }

    ghost function State(): Tracked
      reads this
    {
      Tracked(previousLines, previousWidth, previousHeight,
              cursorRow, hardwareCursorRow, maxLinesRendered, previousViewportTop)
    }

    /** Forgets the last frame; the impossible size forces the next one to clear. */
    method ResetRenderState()
      modifies this
      ensures State() == Tracked([], -1, -1, 0, 0, 0, 0)
      ensures forall height: nat, columns: nat :: SizeChanged(State(), height, columns)
    {
      previousLines, previousWidth, previousHeight := [], -1, -1;
      cursorRow, hardwareCursorRow, maxLinesRendered, previousViewportTop := 0, 0, 0, 0;
    }

    method PositionHardwareCursor(f: Frame)
      modifies this`hardwareCursorRow, terminal
      ensures (State(), terminal.screen) == PositionCursor(old(State()), old(terminal.screen), f)
    {
      if f.cursor.Hidden? || |f.lines| == 0 {
        HideOrShow(false);
        return;
      }
      var targetRow := CursorTarget(f.cursor, |f.lines|);
      var rowDelta := targetRow - hardwareCursorRow;
      RunMove(terminal.screen, rowDelta, CursorColumn(f.cursor.col + 1));
      terminal.Write(MoveOps(rowDelta) + [CursorColumn(f.cursor.col + 1)]);
      hardwareCursorRow := targetRow;
      HideOrShow(f.showCursor);
    }

    method HideOrShow(on: bool)
      modifies terminal
      ensures terminal.screen == Step(old(terminal.screen), ShowCursor(on))
    {
      RunSnoc(terminal.screen, [], ShowCursor(on));
      assert [] + [ShowCursor(on)] == [ShowCursor(on)];
      terminal.Write([ShowCursor(on)]);
    }

    /** The common end of a painted frame. */
    method RememberFrame(f: Frame)
      modifies this, terminal
      ensures (State(), terminal.screen) == Finish(old(State()), old(terminal.screen), f)
    {
      PositionHardwareCursor(f);
      previousLines := f.lines;
      previousWidth := f.columns;
      previousHeight := terminal.screen.height;
    }

    method PaintAll(lines: seq<string>, clear: bool)
      modifies terminal
      ensures var start := if clear then ClearAll(old(terminal.screen)) else old(terminal.screen);
        terminal.screen == PrintLines(start, lines, |lines|)
    {
      hide PrintLines;
      var output := new TerminalWriter(terminal);
      if clear {
        output.Append(EraseDisplay);
        output.Append(CursorHome);
        output.Append(EraseScrollback);
      }
      AppendLines(output, lines);
      output.Flush();
    }

    method FullRender(f: Frame, clear: bool)
      modifies this, terminal
      ensures (State(), terminal.screen) == Repaint(old(State()), old(terminal.screen), f, clear)
    {
      hide PrintLines, ClearAll, Finish;
      ghost var start := if clear then ClearAll(terminal.screen) else terminal.screen;
      var height := terminal.screen.height;
      PaintAll(f.lines, clear);
      cursorRow := Max(0, |f.lines| - 1);
      hardwareCursorRow := cursorRow;
      maxLinesRendered := if clear then |f.lines| else Max(maxLinesRendered, |f.lines|);
      previousViewportTop := Max(0, Max(height, |f.lines|) - height);
      assert State() == Repainted(old(State()), height, f, clear);
      RememberFrame(f);
    }

    /** Erases the rows that a shorter frame no longer has. */
    method PaintTruncated(newCount: nat)
      requires newCount < |previousLines|
      modifies terminal
      ensures terminal.screen
           == TruncateRows(old(terminal.screen), hardwareCursorRow, |previousLines|, newCount)
    {
      hide Step, EraseRows, MoveBy;
      var output := new TerminalWriter(terminal);
      output.AppendMove(Max(0, newCount - 1) - hardwareCursorRow);
      output.Append(CarriageReturn);
      var extraLines: int := |previousLines| - newCount;
      var clearStartOffset := if newCount != 0 then 1 else 0;
      if clearStartOffset > 0 {
        output.Append(CursorDown(1));
      }
      AppendErasedRows(output, extraLines);
      var moveBack: int := extraLines - 1 + clearStartOffset;
      output.AppendMove(-moveBack);
      output.Flush();
    }

    method TruncateFrame(f: Frame)
      requires |f.lines| < |previousLines|
      modifies this, terminal
      ensures (State(), terminal.screen) == Truncate(old(State()), old(terminal.screen), f)
    {
      hide TruncateRows, Finish;
      PaintTruncated(|f.lines|);
      cursorRow := Max(0, |f.lines| - 1);
      hardwareCursorRow := cursorRow;
      RememberFrame(f);
    }

    method AppendReach(output: TerminalWriter, target: nat, height: nat) returns (viewportTop: nat)
      requires output.Pending().height == height
      modifies output
      ensures output.Pending() == Reach(State(), old(output.Pending()), target)
      ensures viewportTop == previousViewportTop + Overshoot(State(), height, target)
    {
      hide Step, MoveBy, NewLines;
      viewportTop := previousViewportTop;
      var prevViewportBottom := viewportTop + height - 1;
      if target > prevViewportBottom {
        var currentScreenRow := Max(0, Min(height - 1, hardwareCursorRow - viewportTop));
        output.AppendMove(height - 1 - currentScreenRow);
        var scroll := target - prevViewportBottom;
        AppendNewLines(output, scroll);
        viewportTop := viewportTop + scroll;
      } else {
        output.AppendMove(target - hardwareCursorRow);
      }
    }

    /** Brings the cursor to the first row to rewrite. */
    method AppendGoTo(output: TerminalWriter, f: Frame, firstChanged: nat, height: nat)
      returns (viewportTop: nat)
      requires output.Pending().height == height
      modifies output
      ensures output.Pending() == GoTo(State(), old(output.Pending()), f, firstChanged)
      ensures viewportTop == previousViewportTop + Overshoot(State(), height, PatchTarget(State(), f, firstChanged))
    {
      hide Step, Reach;
      var appendStart := |f.lines| > |previousLines| && firstChanged == |previousLines| && firstChanged > 0;
      var moveTargetRow: nat := if appendStart then firstChanged - 1 else firstChanged;
      viewportTop := AppendReach(output, moveTargetRow, height);
      if appendStart {
        output.AppendNewLine();
      } else {
        output.Append(CarriageReturn);
      }
    }

    /** Rewrites rows firstChanged .. renderEnd and erases what a shorter frame leaves. */
    method AppendPatch(output: TerminalWriter, lines: seq<string>, firstChanged: nat, renderEnd: nat)
      returns (finalCursorRow: nat)
      requires firstChanged <= renderEnd < |lines|
      modifies output
      ensures output.Pending() == PatchRows(old(output.Pending()), |previousLines|, lines, firstChanged, renderEnd)
      ensures finalCursorRow == FinalRow(|previousLines|, |lines|, renderEnd)
    {
      hide Step, EraseBelow, RewriteLines, MoveBy;
      AppendRewrittenLines(output, lines, firstChanged, renderEnd + 1);
      finalCursorRow := renderEnd;
      if |previousLines| > |lines| {
        output.AppendMove(|lines| - 1 - renderEnd);
        finalCursorRow := |lines| - 1;
        var extraLines: int := |previousLines| - |lines|;
        AppendErasedBelow(output, extraLines);
        output.AppendMove(-extraLines);
      }
    }

    method PaintPatch(f: Frame, firstChanged: nat, renderEnd: nat)
      returns (viewportTop: nat, finalCursorRow: nat)
      requires firstChanged <= renderEnd < |f.lines|
      modifies terminal
      ensures terminal.screen == PatchRows(GoTo(State(), old(terminal.screen), f, firstChanged),
                                           |previousLines|, f.lines, firstChanged, renderEnd)
      ensures finalCursorRow == FinalRow(|previousLines|, |f.lines|, renderEnd)
      ensures viewportTop == previousViewportTop
           + Overshoot(State(), old(terminal.screen).height, PatchTarget(State(), f, firstChanged))
    {
      hide GoTo, PatchRows;
      var output := new TerminalWriter(terminal);
      viewportTop := AppendGoTo(output, f, firstChanged, terminal.screen.height);
      finalCursorRow := AppendPatch(output, f.lines, firstChanged, renderEnd);
      output.Flush();
    }

    method PatchFrame(f: Frame, firstChanged: nat, lastChanged: nat)
      requires firstChanged < |f.lines| && firstChanged <= lastChanged
      modifies this, terminal
      ensures (State(), terminal.screen)
           == Patch(old(State()), old(terminal.screen), f, firstChanged, lastChanged)
    {
      hide GoTo, PatchRows, Finish;
      var height: int := terminal.screen.height;
      var renderEnd := Min(lastChanged, |f.lines| - 1);
      var viewportTop, finalCursorRow := PaintPatch(f, firstChanged, renderEnd);
      var lastTop: int := finalCursorRow - height + 1;
      cursorRow := Max(0, |f.lines| - 1);
      hardwareCursorRow := finalCursorRow;
      maxLinesRendered := Max(maxLinesRendered, |f.lines|);
      previousViewportTop := Max(viewportTop, lastTop);
      assert State() == Patched(old(State()), height, f, firstChanged, renderEnd);
      RememberFrame(f);
    }

    /** The scan for the first and last differing row. */
    method FindChanges(newLines: seq<string>) returns (firstChanged: int, lastChanged: int)
      ensures (firstChanged, lastChanged) == ChangedRange(previousLines, newLines)
    {
      firstChanged, lastChanged := -1, -1;
      for index := 0 to Max(|newLines|, |previousLines|)
        invariant firstChanged == FirstChanged(previousLines, newLines, index)
        invariant lastChanged == LastChanged(previousLines, newLines, index)
      {
        FirstChangedIsFirst(previousLines, newLines, index);
        if LineAt(previousLines, index) != LineAt(newLines, index) {
          if firstChanged == -1 {
            firstChanged := index;
          }
          lastChanged := index;
        }
      }
      if |newLines| > |previousLines| {
        if firstChanged == -1 {
          firstChanged := |previousLines|;
        }
        lastChanged := |newLines| - 1;
      }
    }

    /** Draws one frame. Deciding to start over happens before anything reaches the
        terminal: a writer that is given up without a flush leaves no trace. */
    method RenderMainScreen(f: Frame)
      modifies this, terminal
      ensures (State(), terminal.screen) == Render(old(State()), old(terminal.screen), f)
    {
      hide Repaint, Truncate, Patch, PositionCursor, ChangedRange;
      var height := terminal.screen.height;
      var widthChanged := previousWidth != 0 && previousWidth != f.columns;
      var heightChanged := previousHeight != 0 && previousHeight != height;
      if |previousLines| == 0 && !widthChanged && !heightChanged {
        FullRender(f, false);
        return;
      }
      if widthChanged || heightChanged {
        FullRender(f, true);
        return;
      }
      if f.clearOnShrink && |f.lines| < maxLinesRendered && !f.hasOverlays {
        FullRender(f, true);
        return;
      }
      var firstChanged, lastChanged := FindChanges(f.lines);
      RangeBounds(previousLines, f.lines);
      if firstChanged == -1 {
        PositionHardwareCursor(f);
        previousHeight := height;
        return;
      }
      if firstChanged >= |f.lines| {
        if Max(0, |f.lines| - 1) < previousViewportTop || |previousLines| - |f.lines| > height {
          FullRender(f, true);
        } else {
          TruncateFrame(f);
        }
        return;
      }
      if firstChanged < previousViewportTop {
        FullRender(f, true);
        return;
      }
      PatchFrame(f, firstChanged, lastChanged);
    }
  }

  method AppendErasedRows(output: TerminalWriter, extraLines: nat)
    modifies output
    ensures output.Pending() == EraseRows(old(output.Pending()), extraLines)
  {
    hide MoveBy;
    ghost var base := output.Pending();
    for index := 0 to extraLines
      invariant output.Pending() == if 0 < index < extraLines then Step(EraseRows(base, index), CursorDown(1))
                                    else EraseRows(base, index)
    {
      output.Append(CarriageReturn);
      output.Append(EraseLine);
      if index < extraLines - 1 {
        output.Append(CursorDown(1));
      }
    }
  }

  method AppendErasedBelow(output: TerminalWriter, extraLines: nat)
    modifies output
    ensures output.Pending() == EraseBelow(old(output.Pending()), extraLines)
  {
    ghost var base := output.Pending();
    for index := 0 to extraLines
      invariant output.Pending() == EraseBelow(base, index)
    {
      output.AppendNewLine();
      output.Append(EraseLine);
    }
  }

  method AppendNewLines(output: TerminalWriter, count: nat)
    modifies output
    ensures output.Pending() == NewLines(old(output.Pending()), count)
  {
    ghost var base := output.Pending();
    for index := 0 to count
      invariant output.Pending() == NewLines(base, index)
    {
      output.AppendNewLine();
    }
  }

  method AppendRewrittenLines(output: TerminalWriter, lines: seq<string>, first: nat, end: nat)
    requires first <= end <= |lines|
    modifies output
    ensures output.Pending() == RewriteLines(old(output.Pending()), lines, first, end)
  {
    hide RewriteOne;
    ghost var base := output.Pending();
    for index := first to end
      invariant output.Pending() == RewriteLines(base, lines, first, index)
    {
      AppendRewrittenLine(output, lines[index], index > first);
    }
  }

  method AppendRewrittenLine(output: TerminalWriter, line: string, below: bool)
    modifies output
    ensures output.Pending() == RewriteOne(old(output.Pending()), line, below)
  {
    if below {
      output.AppendNewLine();
    }
    output.Append(EraseLine);
    output.Append(Print(line));
  }

  method AppendLines(output: TerminalWriter, lines: seq<string>)
    modifies output
    ensures output.Pending() == PrintLines(old(output.Pending()), lines, |lines|)
  {
    ghost var base := output.Pending();
    for index := 0 to |lines|
      invariant output.Pending() == PrintLines(base, lines, index)
    {
      if index > 0 {
        output.AppendNewLine();
      }
      output.Append(Print(lines[index]));
    }
  }
}
