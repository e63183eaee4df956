// Clearing when the content shrinks (internal/tui/main_screen.go): with the setting
// on and no overlay open the viewport always shows the end of the content, and no
// frame can lose the cursor.

module MainScreenClearing {
  import opened Options
  import opened TerminalModel
  import opened MainScreen

  ghost predicate Clears(f: Frame) { f.clearOnShrink && !f.hasOverlays }

  /** The viewport begins where the last `height` lines do. */
  ghost predicate AtTail(t: Tracked, s: Screen) { s.top == Max(0, |t.lines| - s.height) }

  lemma RepaintShowsTheTail(t: Tracked, s: Screen, f: Frame, clear: bool)
    requires s.Valid() && f.CursorInTail(s.height) && f.columns > 0
    requires clear || (InSync(t, s) && t.lines == [])
    ensures var (t', s') := Repaint(t, s, f, clear); InSync(t', s') && AtTail(t', s') && t'.lines == f.lines
  {
    hide PrintLines, ClearAll, Finish;
    ClearAllBlanks(s, f.lines);
    var start := if clear then ClearAll(s) else s;
    PrintLinesPrints(start, f.lines, |f.lines|);
    var printed := PrintLines(start, f.lines, |f.lines|);
    FinishDraws(Repainted(t, s.height, f, clear), printed, f);
    RepaintDraws(t, s, f, clear);
    FinishRemembers(Repainted(t, s.height, f, clear), printed, f);
  }

  lemma FinishRemembers(t: Tracked, s: Screen, f: Frame)
    ensures var t' := Finish(t, s, f).0; t'.lines == f.lines && t'.viewportTop == t.viewportTop
  {
    hide MoveBy, Step;
  }

  // Lines rewritten or added below leave the viewport at the end of the content.
  lemma PatchShowsTheTail(t: Tracked, s: Screen, f: Frame, first: nat, last: nat)
    requires InSync(t, s) && AtTail(t, s) && t.lines != []
    requires |t.lines| <= |f.lines| && first <= last < |f.lines|
    requires |f.lines| > |t.lines| ==> last == |f.lines| - 1
    ensures var t' := Patch(t, s, f, first, last).0;
      t'.lines == f.lines && t'.viewportTop == Max(0, |f.lines| - s.height)
  {
    hide GoTo, PatchRows, Finish;
    var end := Min(last, |f.lines| - 1);
    FinishRemembers(Patched(t, s.height, f, first, end),
                    PatchRows(GoTo(t, s, f, first), |t.lines|, f.lines, first, end), f);
  }

  lemma TallestIsRemembered(t: Tracked, s: Screen, f: Frame)
    requires ContentInSync(t, s) && Clears(f) && t.lines != [] && !NeedsClear(t, s.height, f)
    ensures |t.lines| <= |f.lines|
  {
  }

  /** One frame: the viewport stays at the end of the content, and the cursor in it. */
  lemma ClearingKeepsTheTail(t: Tracked, s: Screen, f: Frame)
    requires s.Valid() && f.CursorInTail(s.height) && f.columns > 0 && Clears(f)
    requires ResizedSince(t, s.height, f.columns) || (InSync(t, s) && AtTail(t, s))
    ensures var (t', s') := Render(t, s, f);
      s'.height == s.height && Drawn(t', s', f, true) && InSync(t', s') && AtTail(t', s')
  {
    hide Patch, Truncate, Repaint, PositionCursor, ChangedRange, Drawn;
    RenderDraws(t, s, f);
    if NeedsClear(t, s.height, f) {
      RepaintShowsTheTail(t, s, f, true);
    } else if t.lines == [] {
      RepaintShowsTheTail(t, s, f, false);
    } else {
      TallestIsRemembered(t, s, f);
      RangeBounds(t.lines, f.lines);
      var (first, last) := ChangedRange(t.lines, f.lines);
      if first == -1 {
        CursorKeepsTheTail(t, s, f);
      } else {
        PatchShowsTheTail(t, s, f, first, last);
      }
      TrackedIsDrawn(Render(t, s, f).0, Render(t, s, f).1, f, KeepsCursor(t, s.height, f));
    }
  }

  lemma CursorKeepsTheTail(t: Tracked, s: Screen, f: Frame)
    ensures var t' := PositionCursor(t, s, f).0; t'.lines == t.lines && t'.viewportTop == t.viewportTop
  {
    hide MoveBy, Step;
  }

  lemma TrackedIsDrawn(t: Tracked, s: Screen, f: Frame, reachable: bool)
    requires Drawn(t, s, f, reachable)
    ensures s.top == t.viewportTop && (reachable ==> InSync(t, s) && Drawn(t, s, f, true))
  {
  }

  // ---------------------------------------------------------------- when the terminal is cleared

  /** The new lines are the first of the old ones, and one left out held text. */
  ghost predicate CutsOff(old_: seq<string>, new_: seq<string>) {
    && |new_| < |old_| && new_ == old_[..|new_|]
    && exists i :: |new_| <= i < |old_| && old_[i] != ""
  }

  lemma CutOffShows(old_: seq<string>, new_: seq<string>)
    ensures CutsOff(old_, new_) <==> FirstChanged(old_, new_, Max(|old_|, |new_|)) >= |new_| && |new_| < |old_|
  {
    hide FirstChanged;
    var n := Max(|old_|, |new_|);
    var first := FirstChanged(old_, new_, n);
    FirstChangedIsFirst(old_, new_, n);
    if |new_| < |old_| {
      forall i | 0 <= i < |old_| ensures LineAt(old_, i) == old_[i] && (i >= |new_| ==> LineAt(new_, i) == "") {}
      if first >= |new_| {
        assert old_[first] != "";
        assert new_ == old_[..|new_|];
      }
    }
  }

  /** At the same size and without a clear on shrink, the terminal and its scrollback are
      erased exactly when a row above the viewport changes, or lines are cut off up to a
      place above the viewport or more of them than it has. */
  lemma WhenCleared(t: Tracked, height: nat, f: Frame)
    requires t.lines != [] && t.viewportTop < |t.lines|
    requires t.width == f.columns && t.height == height && !(Clears(f) && |f.lines| < t.maxRendered)
    ensures NeedsClear(t, height, f) <==>
      || (exists i :: 0 <= i < Min(t.viewportTop, |f.lines|) && t.lines[i] != f.lines[i])
      || (CutsOff(t.lines, f.lines)
          && (t.viewportTop > Max(0, |f.lines| - 1) || |t.lines| - |f.lines| > height))
  {
    hide FirstChanged, LastChanged;
    var n := Max(|t.lines|, |f.lines|);
    var changed := FirstChanged(t.lines, f.lines, n);
    FirstChangedIsFirst(t.lines, f.lines, n);
    forall i | 0 <= i < |t.lines| && i < |f.lines| ensures t.lines[i] == LineAt(t.lines, i) && f.lines[i] == LineAt(f.lines, i) {}
    CutOffShows(t.lines, f.lines);
  }

  // ---------------------------------------------------------------- whole runs

  ghost predicate AllPlayable(t: Tracked, s: Screen, turns: seq<Turn>)
    decreases |turns|
  {
    turns == [] ||
    (&& Admissible(t, s, turns[0])
     && var (t', s') := PlayOne(t, s, turns[0]);
        AllPlayable(t', s', turns[1..]))
  }

  /** Over every sequence of such frames and resizes, wherever they want their cursors,
      the terminal shows the last frame's lines with the viewport at their end and the
      cursor in its place, and the renderer knows it all. */
  lemma {:induction false} ClearingRunsAreRight(t: Tracked, s: Screen, turns: seq<Turn>)
    requires turns != [] && AllPlayable(t, s, turns) && forall i :: 0 <= i < |turns| ==> Clears(turns[i].frame)
    requires (InSync(t, s) && AtTail(t, s)) || turns[0].resized
    ensures var (t', s') := Play(t, s, turns);
      && s'.Shows(turns[|turns| - 1].frame.lines) && CursorPlaced(s', turns[|turns| - 1].frame)
      && InSync(t', s') && AtTail(t', s')
    decreases |turns|
  {
    hide Render, CursorPlaced, InSync, AtTail, Clears;
    assert Clears(turns[0].frame);
    ClearingKeepsTheTail(t, ScreenBefore(s, turns[0]), turns[0].frame);
    var (t', s') := PlayOne(t, s, turns[0]);
    var rest := turns[1..];
    if rest == [] {
      assert |turns| == 1;
    } else {
      assert rest[|rest| - 1] == turns[|turns| - 1];
      assert forall i :: 0 <= i < |rest| ==> rest[i] == turns[i + 1];
      ClearingRunsAreRight(t', s', rest);
    }
  }
}
