// Scrollbar geometry and dragging (internal/tui/layout.go and
// internal/tui/alt_screen_mouse.go), with quotients as exact rationals.

module Scrollbar {
  import opened Options
  import opened ScrollViews

  /** The integer nearest to a / b, halves up. */
  function Round(a: int, b: int): int
    requires b > 0
  {
    (2 * a + b) / (2 * b)
  }

  datatype Geometry = Geometry(trackTop: int, trackHeight: nat, thumbTop: int, thumbHeight: nat, maxScrollTop: nat)

  function ThumbHeight(track: nat, content: nat): int {
    if content > 0 then Max(Min(2, track), Min(track, Round(track * track, content))) else track
  }

  function ThumbOffset(scrollTop: int, maxThumbTop: int, maxScrollTop: nat): int {
    if maxScrollTop != 0 then Round(scrollTop * maxThumbTop, maxScrollTop) else 0
  }

  /** Track and thumb of a laid-out view; the thumb shrinks with the content but
      not below two cells where there is room for two. */
  function GeometryOf(trackTop: int, track: nat, content: nat, scrollTop: int): (g: Geometry)
    requires track > 0
  {
    var thumb := ThumbHeight(track, content);
    ThumbFits(track, content);
    var limit := Max(0, content - track);
    Geometry(trackTop, track, trackTop + ThumbOffset(scrollTop, track - thumb, limit), thumb, limit)
  }

  /** The scroll position for a pointer that holds the thumb at a grab offset. */
  function DragTop(g: Geometry, pointerY: int, grab: int): int
    requires g.thumbHeight <= g.trackHeight
  {
    var limit := g.trackHeight - g.thumbHeight;
    var offset := DragOffset(g, pointerY, grab);
    if limit != 0 then Round(offset * g.maxScrollTop, limit) else 0
  }

  function DragOffset(g: Geometry, pointerY: int, grab: int): int {
    Max(0, Min(g.trackHeight - g.thumbHeight, pointerY - g.trackTop - grab))
  }

  // ---------------------------------------------------------------- arithmetic

  lemma RoundBounds(a: int, b: int, q: int)
    requires b > 0
    ensures q == Round(a, b) <==> 2 * (b * q) <= 2 * a + b < 2 * (b * q) + 2 * b
  {
    var r := Round(a, b);
    assert 2 * a + b == (2 * b) * r + (2 * a + b) % (2 * b);
    assert (2 * b) * r == 2 * (b * r);
    if q < r {
      Monotone(b, q + 1, r);
    } else if r < q {
      Monotone(b, r + 1, q);
    }
  }

  lemma Monotone(b: int, x: int, y: int)
    requires b >= 0 && x <= y
    ensures b * x <= b * y && b * (x + 1) == b * x + b
  {
  }

  lemma ThumbFits(track: nat, content: nat)
    requires track > 0
    ensures 0 < ThumbHeight(track, content) <= track
    ensures track >= 2 ==> ThumbHeight(track, content) >= 2
  {
  }

  /** When the content overflows, the thumb has no more places to go than there
      are scroll positions. */
  lemma ThumbTravelWithinScroll(track: nat, content: nat)
    requires 0 < track < content
    ensures track - ThumbHeight(track, content) <= content - track
  {
    var r := Round(track * track, content);
    LargeThumb(track, content, r);
  }

  lemma LargeThumb(t: nat, c: nat, r: int)
    requires 0 < t < c && r == Round(t * t, c)
    ensures r >= 2 * t - c
  {
    hide Round;
    RoundBounds(t * t, c, r);
    if r < 2 * t - c {
      Monotone(c, r + 1, 2 * t - c);
      Squares(t, c);
    }
  }

  lemma Squares(t: nat, c: nat)
    requires t < c
    ensures c * (2 * t - c) <= t * t
  {
    var d := c - t;
    assert t * t - c * (2 * t - c) == d * d;
  }

  lemma RoundMonotone(a: int, c: int, b: int)
    requires b > 0 && a <= c
    ensures Round(a, b) <= Round(c, b)
  {
    hide Round;
    RoundBounds(a, b, Round(a, b));
    RoundBounds(c, b, Round(c, b));
    if Round(c, b) < Round(a, b) {
      Monotone(b, Round(c, b) + 1, Round(a, b));
    }
  }

  lemma RoundExact(b: int, q: int)
    requires b > 0
    ensures Round(b * q, b) == q
  {
    hide Round;
    RoundBounds(b * q, b, q);
  }

  lemma RoundInRange(o: nat, k: nat, m: nat)
    requires 0 < k && o <= k
    ensures 0 <= Round(o * m, k) <= m
  {
    hide Round;
    Monotone(m, 0, o);
    Monotone(m, o, k);
    assert m * o == o * m && m * k == k * m;
    RoundMonotone(k * 0, o * m, k);
    RoundExact(k, 0);
    RoundMonotone(o * m, k * m, k);
    RoundExact(k, m);
  }

  /** Rounding to a coarser scale undoes rounding to a finer one. */
  lemma RoundingInverts(o: nat, k: nat, m: nat)
    requires 0 < k <= m && o <= k
    ensures var s := Round(o * m, k); 0 <= s <= m && Round(s * k, m) == o
  {
    hide Round;
    var s := Round(o * m, k);
    RoundInRange(o, k, m);
    assert k * s == s * k && o * m == m * o;
    if k == m {
      RoundExact(k, o);
      assert k * o == o * m;
      RoundExact(m, o);
      assert s * k == m * o;
    } else {
      RoundBounds(o * m, k, s);
      RoundBounds(s * k, m, o);
    }
  }

  // ---------------------------------------------------------------- proportions

  /** x is within half a unit of a / b; a tie goes up. */
  ghost predicate Nearest(x: int, a: int, b: int) { 2 * (b * x) - b <= 2 * a < 2 * (b * x) + b }

  lemma RoundIsNearest(a: int, b: int)
    requires b > 0
    ensures Nearest(Round(a, b), a, b)
  {
    hide Round;
    RoundBounds(a, b, Round(a, b));
  }

  /** The thumb is to the track what the track is to the content, to the nearest
      row, but two rows where that comes out smaller and there is room; content that
      does not overflow gets the whole track. */
  lemma ThumbIsProportional(track: nat, content: nat)
    requires track > 0
    ensures var h := ThumbHeight(track, content);
      && (content <= track ==> h == track)
      && (content > track ==> Nearest(h, track * track, content) || (h == Min(2, track) && SmallerThan(track * track, content, h)))
  {
    if content > track {
      RoundIsNearest(track * track, content);
      var r := Round(track * track, content);
      hide Round;
      Monotone(track, track, content);
      assert track * content == content * track;
      RoundMonotone(track * track, content * track, content);
      RoundExact(content, track);
    } else if content > 0 {
      hide Round;
      Monotone(track, content, track);
      assert content * track == track * content;
      RoundExact(content, track);
      RoundMonotone(content * track, track * track, content);
    }
  }

  // a / b rounds to less than h.
  ghost predicate SmallerThan(a: int, b: int, h: int) { exists r :: Nearest(r, a, b) && r < h }

  /** The thumb is as far down its way as the view is down the content, to the nearest
      row; for content that fits it fills the track and there is nowhere to scroll. */
  lemma ThumbShowsThePosition(trackTop: int, track: nat, content: nat, scrollTop: int)
    requires track > 0
    ensures var g := GeometryOf(trackTop, track, content, scrollTop);
      && g.trackTop == trackTop && g.trackHeight == track && g.thumbHeight == ThumbHeight(track, content)
      && (content > track ==>
            && g.maxScrollTop == content - track
            && Nearest(g.thumbTop - trackTop, scrollTop * (track - g.thumbHeight), content - track))
      && (content <= track ==> g == Geometry(trackTop, track, trackTop, track, 0))
  {
    ThumbIsProportional(track, content);
    if content > track { RoundIsNearest(scrollTop * (track - ThumbHeight(track, content)), content - track); }
  }

  /** A drag scrolls as far down the content as the thumb is down its way, to the nearest
      row and to the last one at the end; a thumb with no way to go scrolls to the top. */
  lemma DragIsProportional(trackTop: int, track: nat, content: nat, scrollTop: int, pointerY: int, grab: int)
    requires 0 < track < content
    ensures var g := GeometryOf(trackTop, track, content, scrollTop);
      var (top, offset, way) := (DragTop(g, pointerY, grab), DragOffset(g, pointerY, grab), track - g.thumbHeight);
      && (way == 0 ==> top == 0)
      && (way > 0 ==> Nearest(top, offset * (content - track), way))
      && (way > 0 && pointerY - grab >= trackTop + way ==> top == content - track)
      && (pointerY - grab <= trackTop ==> top == 0)
  {
    ThumbFits(track, content);
    var g := GeometryOf(trackTop, track, content, scrollTop);
    var offset, way := DragOffset(g, pointerY, grab), track - g.thumbHeight;
    if way > 0 {
      RoundIsNearest(offset * (content - track), way);
      RoundExact(way, content - track);
      RoundExact(way, 0);
    }
  }

  // ---------------------------------------------------------------- dragging

  /** Dragging and painting are inverse: for overflowing content the position set
      by a drag is in bounds and paints the thumb exactly where it was dragged. */
  lemma DragPaintsTheThumb(trackTop: int, track: nat, content: nat, scrollTop: int, pointerY: int, grab: int)
    requires 0 < track < content
    ensures var g := GeometryOf(trackTop, track, content, scrollTop);
      var top := DragTop(g, pointerY, grab);
      && 0 <= top <= g.maxScrollTop
      && GeometryOf(trackTop, track, content, top).thumbTop == trackTop + DragOffset(g, pointerY, grab)
  {
    var thumb := ThumbHeight(track, content);
    ThumbFits(track, content);
    ThumbTravelWithinScroll(track, content);
    var g := GeometryOf(trackTop, track, content, scrollTop);
    var limit := track - thumb;
    var offset := DragOffset(g, pointerY, grab);
    if limit != 0 {
      RoundingInverts(offset, limit, content - track);
    } else {
      RoundBounds(0, content - track, 0);
    }
  }

  /** In range, the thumb stays on the track, at its ends for the end positions,
      and never moves up when the content scrolls down. */
  lemma ThumbStaysOnTrack(trackTop: int, track: nat, content: nat, a: int, b: int)
    requires 0 < track < content && 0 <= a <= b <= content - track
    ensures var (ga, gb) := (GeometryOf(trackTop, track, content, a), GeometryOf(trackTop, track, content, b));
      && trackTop <= ga.thumbTop <= gb.thumbTop <= trackTop + track - gb.thumbHeight
      && (a == 0 ==> ga.thumbTop == trackTop)
      && (b == content - track ==> gb.thumbTop == trackTop + track - gb.thumbHeight)
  {
    var k, m := track - ThumbHeight(track, content), content - track;
    ThumbFits(track, content);
    hide Round;
    Monotone(k, 0, a);
    Monotone(k, a, b);
    Monotone(k, b, m);
    assert k * a == a * k && k * b == b * k && k * m == m * k;
    RoundMonotone(m * 0, a * k, m);
    RoundMonotone(a * k, b * k, m);
    RoundMonotone(b * k, m * k, m);
    RoundExact(m, 0);
    RoundExact(m, k);
  }

  /** Pressing on the thumb and moving the pointer by some rows moves the thumb by
      as many, up to the ends of the track. */
  lemma GrabbedThumbFollowsPointer(trackTop: int, track: nat, content: nat, scrollTop: int, pressY: int, delta: int)
    requires 0 < track < content && 0 <= scrollTop <= content - track
    ensures var g := GeometryOf(trackTop, track, content, scrollTop);
      var grab := pressY - g.thumbTop;
      var moved := GeometryOf(trackTop, track, content, DragTop(g, pressY + delta, grab));
      moved.thumbTop == Max(trackTop, Min(trackTop + track - g.thumbHeight, g.thumbTop + delta))
  {
    var g := GeometryOf(trackTop, track, content, scrollTop);
    ThumbStaysOnTrack(trackTop, track, content, scrollTop, scrollTop);
    DragPaintsTheThumb(trackTop, track, content, scrollTop, pressY + delta, pressY - g.thumbTop);
  }

  /** The drag handler: sets the view to the row under the pointer. */
  method ScrollScrollbarToPointer(view: ScrollView, geometry: Geometry, pointerY: int, grabOffset: int)
    requires geometry.thumbHeight <= geometry.trackHeight
    modifies view
    ensures view.State() == old(view.State()).ScrollTo(DragTop(geometry, pointerY, grabOffset), false)
    ensures 0 < old(view.viewportHeight) < old(view.contentHeight)
         && geometry == GeometryOf(geometry.trackTop, old(view.viewportHeight), old(view.contentHeight), old(view.currentScrollTop))
         ==> GeometryOf(geometry.trackTop, view.viewportHeight, view.contentHeight, view.currentScrollTop).thumbTop
             == geometry.trackTop + DragOffset(geometry, pointerY, grabOffset)
  {
    var maxThumbOffset := geometry.trackHeight - geometry.thumbHeight;
    var thumbOffset := Max(0, Min(maxThumbOffset, pointerY - geometry.trackTop - grabOffset));
    var scrollTop := 0;
    if maxThumbOffset != 0 {
      scrollTop := Round(thumbOffset * geometry.maxScrollTop, maxThumbOffset);
    }
    if 0 < view.viewportHeight < view.contentHeight {
      DragPaintsTheThumb(geometry.trackTop, view.viewportHeight, view.contentHeight, view.currentScrollTop,
                         pointerY, grabOffset);
    }
    view.ScrollTo(scrollTop, false);
  }
}
