// What the full-screen renderer leaves on the terminal (internal/tui/alt_screen.go):
// rows of text and the images placed on them, after a redraw or a patch.

module AltScreenRows {
  import opened Options
  import opened KittyImages

  /** The text of each row, the image placed on it if there is one, and the row the
      cursor is on. Erasing text leaves images where they are. */
  datatype Display = Display(text: nat -> nat, images: map<nat, Image>, row: nat)

  function Put(text: nat -> nat, at: nat, line: nat): nat -> nat { (i: nat) => if i == at then line else text(i) }

  function Paint(d: Display, c: Command): Display {
    match c
    case At(row) => Display(Put(d.text, row, 0), d.images, row)
    case Plain(line) => d.(text := Put(d.text, d.row, line))
    case ClearScreen => d.(text := (i: nat) => 0)
    case Transmit(image) => d.(images := d.images[d.row := image])
    case Show(image) => d.(images := d.images[d.row := image])
    case Delete(id) => d.(images := map r | r in d.images && d.images[r].id != id :: d.images[r])
    case DeleteAll => d.(images := map[])
    case DeletePlacements => d.(images := map[])
  }

  function PaintAll(d: Display, commands: seq<Command>): Display {
    if commands == [] then d else Paint(PaintAll(d, commands[..|commands| - 1]), commands[|commands| - 1])
  }

  /** A row shows its text and no image, or its image. */
  ghost predicate RowShown(d: Display, screen: seq<Row>, row: nat) {
    match RowAt(screen, row)
    case Text(line) => d.text(row) == line && row !in d.images
    case Placement(image, _) => row in d.images && d.images[row] == image
  }

  ghost predicate Shown(d: Display, screen: seq<Row>, height: nat) { forall row: nat :: row < height ==> RowShown(d, screen, row) }

  // ---------------------------------------------------------------- painting

  lemma {:induction false} PaintAdds(d: Display, a: seq<Command>, b: seq<Command>)
    ensures PaintAll(d, a + b) == PaintAll(PaintAll(d, a), b)
    decreases |b|
  {
    hide Paint;
    if b == [] {
      assert a + b == a;
    } else {
      var n := |b| - 1;
      assert (a + b)[..|a + b| - 1] == a + b[..n] && (a + b)[|a + b| - 1] == b[n];
      PaintAdds(d, a, b[..n]);
    }
  }

  lemma PaintTwo(d: Display, commands: seq<Command>, a: Command, b: Command)
    ensures PaintAll(d, commands + [a, b]) == Paint(Paint(PaintAll(d, commands), a), b)
  {
    hide Paint;
    assert (commands + [a, b])[..|commands| + 1] == commands + [a];
    assert (commands + [a])[..|commands|] == commands;
  }

  ghost predicate SameAt(p: Display, d: Display, r: nat) {
    && p.text(r) == d.text(r) && (r in p.images <==> r in d.images)
    && (r in d.images ==> p.images[r] == d.images[r])
  }

  ghost predicate Fits(c: Command, row: Row) {
    match row
    case Text(line) => c == Plain(line)
    case Placement(image, _) => c == Transmit(image) || c == Show(image)
  }

  // Going to a row and writing it: that row shows, the others stay.
  lemma RowPaints(d: Display, at: nat, c: Command, screen: seq<Row>)
    requires Fits(c, RowAt(screen, at)) && (at !in d.images || RowAt(screen, at).Placement?)
    ensures var p := Paint(Paint(d, At(at)), c);
      && RowShown(p, screen, at)
      && forall r: nat :: r != at ==> SameAt(p, d, r)
  {
  }

  lemma CommandFits(cache: Cache, row: Row)
    ensures Fits(RowCommand(cache, row), row)
  {
  }

  lemma {:induction false} LinesFit(cache: Cache, rows: seq<Row>)
    ensures forall i :: 0 <= i < |rows| ==> Fits(Lines(cache, rows)[i], rows[i])
  {
    hide RowCommand, Fits, CacheAfter;
    if rows != [] {
      var n := |rows| - 1;
      LinesFit(cache, rows[..n]);
      CommandFits(CacheAfter(cache, rows[..n]), rows[n]);
      assert forall i :: 0 <= i < n ==> Lines(cache, rows)[i] == Lines(cache, rows[..n])[i] && rows[..n][i] == rows[i];
    }
  }

  ghost predicate NoneFrom(d: Display, k: nat) { forall r :: r in d.images ==> r < k }

  lemma {:induction false} PlacedPaints(d: Display, lines: seq<Command>, screen: seq<Row>, k: nat)
    requires |lines| == |screen| && forall i :: 0 <= i < |screen| ==> Fits(lines[i], screen[i])
    requires d.images == map[]
    ensures var p := PaintAll(d, Placed(lines, k));
      Shown(p, screen, k) && NoneFrom(p, k)
  {
    hide Paint, Fits, RowShown, PaintAll;
    if k == 0 {
      NothingPainted(d);
    } else {
      PlacedPaints(d, lines, screen, k - 1);
      var before := PaintAll(d, Placed(lines, k - 1));
      var c := if k - 1 < |lines| then lines[k - 1] else Plain(0);
      BlankFits();
      PaintTwo(d, Placed(lines, k - 1), At(k - 1), c);
      RowPaints(before, k - 1, c, screen);
      var p := Paint(Paint(before, At(k - 1)), c);
      forall row: nat | row < k - 1 ensures RowShown(p, screen, row) {
        assert SameAt(p, before, row);
        RowStays(before, p, screen, row);
      }
      forall r | r in p.images ensures r < k {
        if r != k - 1 { assert SameAt(p, before, r); }
      }
    }
  }

  lemma BlankFits()
    ensures Fits(Plain(0), Text(0))
  {
  }

  lemma NothingPainted(d: Display)
    ensures PaintAll(d, []) == d
  {
  }

  lemma RowStays(d: Display, p: Display, screen: seq<Row>, row: nat)
    requires RowShown(d, screen, row)
    requires SameAt(p, d, row)
    ensures RowShown(p, screen, row)
  {
  }

  lemma {:induction false} DeletionsOnlyDelete(d: Display, deletions: seq<Command>)
    requires d.images == map[] && forall i :: 0 <= i < |deletions| ==> deletions[i].Delete?
    ensures PaintAll(d, deletions) == d
  {
    if deletions != [] {
      DeletionsOnlyDelete(d, deletions[..|deletions| - 1]);
    }
  }

  lemma {:induction false} EvictOnlyDeletes(cache: Cache, visible: set<nat>)
    ensures forall i :: 0 <= i < |Evict(cache, visible).deletions| ==> Evict(cache, visible).deletions[i].Delete?
    decreases |cache|
  {
    hide OverLimits, Offscreen;
    if OverLimits(Offscreen(cache, visible)) && OldestOffscreen(cache, visible) >= 0 {
      SmallerCache(cache, OldestOffscreen(cache, visible));
      EvictOnlyDeletes(RemoveAt(cache, OldestOffscreen(cache, visible)), visible);
    }
  }

  lemma ClearedIsBare(d: Display, s: Screen, fullRedraw: bool)
    ensures PaintAll(d, Cleared(s, fullRedraw)).images == map[]
  {
    var c := Clearing(s, fullRedraw);
    assert [c][..0] == [] && [c] + [] == [c];
    assert PaintAll(d, [c]) == Paint(d, c);
    if fullRedraw {
      assert [c] + [ClearScreen] == [c, ClearScreen] && [c, ClearScreen][..1] == [c];
    }
  }

  // ---------------------------------------------------------------- one frame

  lemma RedrawShows(d: Display, s: Screen, screen: seq<Row>, fullRedraw: bool, height: nat)
    requires |screen| <= height
    ensures var deletions := Evict(CacheAfter(s.cache, screen), VisibleIds(screen)).deletions;
      Shown(PaintAll(d, Cleared(s, fullRedraw) + (deletions + Placed(Lines(s.cache, screen), height))), screen, height)
  {
    hide PaintAll, Evict, CacheAfter, VisibleIds, Lines, Placed, Cleared, Shown, Fits;
    var deletions := Evict(CacheAfter(s.cache, screen), VisibleIds(screen)).deletions;
    var lines := Lines(s.cache, screen);
    var bare := PaintAll(d, Cleared(s, fullRedraw));
    ClearedIsBare(d, s, fullRedraw);
    EvictOnlyDeletes(CacheAfter(s.cache, screen), VisibleIds(screen));
    DeletionsOnlyDelete(bare, deletions);
    LinesFit(s.cache, screen);
    PlacedPaints(bare, lines, screen, height);
    PaintAdds(bare, deletions, Placed(lines, height));
    PaintAdds(d, Cleared(s, fullRedraw), deletions + Placed(lines, height));
  }

  // What a patch leaves: rows up to k as they should be now, the others as they were;
  // but an image whose row went missing stays.
  ghost predicate Patched(p: Display, screen: seq<Row>, previous: seq<Row>, row: nat, k: nat) {
    if row < k && !(RowAt(previous, row).Placement? && row >= |screen|) then RowShown(p, screen, row)
    else if row < k then row in p.images
    else RowShown(p, previous, row)
  }

  ghost predicate PatchedUpTo(p: Display, screen: seq<Row>, previous: seq<Row>, k: nat, height: nat) {
    forall row: nat :: row < height ==> Patched(p, screen, previous, row, k)
  }

  lemma PatchStarts(d: Display, screen: seq<Row>, previous: seq<Row>, height: nat)
    requires Shown(d, previous, height)
    ensures PatchedUpTo(d, screen, previous, 0, height)
  {
    hide RowShown;
  }

  lemma RowToPatch(p: Display, screen: seq<Row>, previous: seq<Row>, at: nat)
    ensures Patched(p, screen, previous, at, at) <==> RowShown(p, previous, at)
  {
  }

  lemma RowIsPatched(p: Display, screen: seq<Row>, previous: seq<Row>, at: nat)
    requires if RowAt(previous, at).Placement? && at >= |screen| then at in p.images else RowShown(p, screen, at)
    ensures Patched(p, screen, previous, at, at + 1)
  {
  }

  lemma {:induction false} ChangedPaints(d: Display, screen: seq<Row>, previous: seq<Row>, k: nat, height: nat)
    requires Shown(d, previous, height) && !ImagesChanged(screen, previous) && k <= height
    ensures var p := PaintAll(d, Changed(screen, previous, k));
      PatchedUpTo(p, screen, previous, k, height)
  {
    hide PaintAll, Paint, RowShown, Patched, ImagesChanged;
    if k == 0 {
      NothingPainted(d);
      PatchStarts(d, screen, previous, height);
    } else {
      var at: nat := k - 1;
      ChangedPaints(d, screen, previous, at, height);
      var before := PaintAll(d, Changed(screen, previous, at));
      assert Patched(before, screen, previous, at, at);
      RowToPatch(before, screen, previous, at);
      if at < |previous| && RowAt(screen, at) == previous[at] {
        forall row: nat | row < height ensures Patched(before, screen, previous, row, k) {
          assert Patched(before, screen, previous, row, at);
          KeptRowPatched(before, screen, previous, row, at);
        }
      } else {
        var c := if RowAt(screen, at).Placement? then Transmit(RowAt(screen, at).image) else Plain(RowAt(screen, at).line);
        PaintTwo(d, Changed(screen, previous, at), At(at), c);
        OneRowPatched(before, screen, previous, at, c);
        var p := Paint(Paint(before, At(at)), c);
        forall row: nat | row < height ensures Patched(p, screen, previous, row, k) {
          assert Patched(before, screen, previous, row, at);
          if row == at {
            RowIsPatched(p, screen, previous, at);
          } else {
            OtherRowPatched(before, p, screen, previous, row, at);
          }
        }
      }
    }
  }

  lemma KeptRowPatched(p: Display, screen: seq<Row>, previous: seq<Row>, row: nat, at: nat)
    requires Patched(p, screen, previous, row, at) && RowAt(screen, at) == RowAt(previous, at)
    ensures Patched(p, screen, previous, row, at + 1)
  {
  }

  lemma OtherRowPatched(before: Display, p: Display, screen: seq<Row>, previous: seq<Row>, row: nat, at: nat)
    requires row != at && Patched(before, screen, previous, row, at)
    requires SameAt(p, before, row)
    ensures Patched(p, screen, previous, row, at + 1)
  {
  }

  lemma OneRowPatched(d: Display, screen: seq<Row>, previous: seq<Row>, at: nat, c: Command)
    requires RowShown(d, previous, at) && !ImagesChanged(screen, previous)
    requires !(at < |previous| && RowAt(screen, at) == previous[at])
    requires c == if RowAt(screen, at).Placement? then Transmit(RowAt(screen, at).image) else Plain(RowAt(screen, at).line)
    ensures var p := Paint(Paint(d, At(at)), c);
      && (if RowAt(previous, at).Placement? && at >= |screen| then at in p.images else RowShown(p, screen, at))
      && forall r: nat :: r != at ==> SameAt(p, d, r)
  {
    assert at < |screen| && screen[at] != RowAt(previous, at) ==> !screen[at].Placement? && !RowAt(previous, at).Placement?;
  }

  /** An image on a row that the shorter frame no longer has, in a patch. */
  ghost predicate Drops(s: Screen, rows: seq<Row>, width: nat, height: nat) {
    var screen := LastRows(rows, height);
    && !FullRedraw(s, width, height) && !ImagesChanged(screen, s.previous)
    && exists i :: |screen| <= i < |s.previous| && s.previous[i].Placement?
  }

  /** One frame: whatever was on the terminal before a full redraw, and what the last
      frame showed otherwise, every row shows what the frame has for it if and only if
      the frame drops no image with its row. */
  lemma FrameIsShown(s: Screen, d: Display, rows: seq<Row>, width: nat, height: nat)
    requires FullRedraw(s, width, height) || (Shown(d, s.previous, s.height) && |s.previous| <= s.height)
    ensures Shown(PaintAll(d, Render(s, rows, width, height).commands), LastRows(rows, height), height)
      <==> !Drops(s, rows, width, height)
  {
    hide PaintAll, Evict, CacheAfter, VisibleIds, Lines, Placed, Cleared, RowShown, Changed, ImagesChanged;
    var screen := LastRows(rows, height);
    if FullRedraw(s, width, height) || ImagesChanged(screen, s.previous) {
      RedrawShows(d, s, screen, FullRedraw(s, width, height), height);
    } else {
      ChangedPaints(d, screen, s.previous, height, height);
      var p := PaintAll(d, Changed(screen, s.previous, height));
      forall row: nat | row < height ensures RowShown(p, screen, row) <==> !(row >= |screen| && RowAt(s.previous, row).Placement?) {
        assert Patched(p, screen, s.previous, row, height);
        if row >= |screen| { BareRow(p, screen, row); }
      }
      assert forall i :: |screen| <= i < |s.previous| ==> RowAt(s.previous, i) == s.previous[i];
      if Drops(s, rows, width, height) {
        var i :| |screen| <= i < |s.previous| && s.previous[i].Placement?;
        assert !RowShown(p, screen, i);
      }
    }
  }

  lemma BareRow(p: Display, screen: seq<Row>, row: nat)
    requires row >= |screen|
    ensures RowShown(p, screen, row) ==> row !in p.images
  {
  }

  // ---------------------------------------------------------------- runs

  /** An event, and what is on the terminal if something else has written to it: before a
      frame of another size, or the first one after a start or a reset. */
  datatype Sight = Sight(event: Event, found: Display)

  datatype Seen = Seen(screen: Screen, display: Display)

  function Before(v: Seen, sight: Sight): Display {
    if sight.event.Draw? && FullRedraw(v.screen, sight.event.width, sight.event.height) then sight.found else v.display
  }

  function Watch(v: Seen, sight: Sight): Seen {
    match sight.event
    case Start => v.(screen := Screen([], [], 0, 0))
    case Reset => v.(screen := Screen(v.screen.cache, [], 0, 0))
    case Draw(rows, width, height) =>
      var f := Render(v.screen, rows, width, height);
      Seen(f.next, PaintAll(Before(v, sight), f.commands))
  }

  function Watched(d: Display, sights: seq<Sight>): Seen {
    if sights == [] then Seen(Screen([], [], 0, 0), d)
    else Watch(Watched(d, sights[..|sights| - 1]), sights[|sights| - 1])
  }

  ghost predicate DropsNothing(d: Display, sights: seq<Sight>) {
    sights != [] ==>
      var before, e := sights[..|sights| - 1], sights[|sights| - 1].event;
      && DropsNothing(d, before)
      && (e.Draw? ==> !Drops(Watched(d, before).screen, e.rows, e.width, e.height))
  }

  /** Over any run in which no frame drops an image with its row, whatever else writes to
      the terminal across resizes, starts and resets, the terminal shows every row of the
      last frame after each one. */
  lemma {:induction false} EveryFrameIsShown(d: Display, sights: seq<Sight>)
    requires DropsNothing(d, sights)
    ensures var v := Watched(d, sights);
      && |v.screen.previous| <= v.screen.height
      && (v.screen.previous != [] ==> Shown(v.display, v.screen.previous, v.screen.height))
      && (sights != [] && sights[|sights| - 1].event.Draw? ==>
            var e := sights[|sights| - 1].event;
            v.screen.previous == LastRows(e.rows, e.height) && Shown(v.display, v.screen.previous, e.height))
  {
    hide Render, PaintAll, Shown, Drops;
    if sights != [] {
      var n := |sights| - 1;
      EveryFrameIsShown(d, sights[..n]);
      var v, e := Watched(d, sights[..n]), sights[n].event;
      if e.Draw? {
        FrameIsShown(v.screen, Before(v, sights[n]), e.rows, e.width, e.height);
        NextRemembers(v.screen, e.rows, e.width, e.height);
      }
    }
  }

  lemma NextRemembers(s: Screen, rows: seq<Row>, width: nat, height: nat)
    ensures var next := Render(s, rows, width, height).next;
      next.previous == LastRows(rows, height) && next.height == height && |next.previous| <= height
  {
  }
}
