// The sizes of boxes that are not given any (internal/tui/layout.go): a stack is as
// high as the children it lays out, which are exactly its visible ones, in order, and
// a scroll view as high as its content.

module LayoutSizes {
  import opened Options
  import opened ScrollViews
  import opened Layout
  import StackSizes
  import StackShares

  function VisibleIds(children: seq<Child>, i: nat): seq<nat>
    requires i <= |children|
    decreases |children| - i
  {
    if i == |children| then []
    else (if children[i].visible then [children[i].component.id] else []) + VisibleIds(children, i + 1)
  }

  function Ids(boxes: seq<Box>): seq<nat> { seq(|boxes|, k requires 0 <= k < |boxes| => boxes[k].id) }

  lemma IdOf(m: Renders, c: Component, p: Place)
    ensures LayoutOf(m, c, p).id == c.id
  {
    hide Column, Row, Settings, Measured, Tallest, Total, Reclip, Translate, Intersect, StackSizes.Allocate,
      ScrollState.UpdateLayout, ContentWidth;
  }

  lemma IdsCons(box: Box, boxes: seq<Box>)
    ensures Ids([box] + boxes) == [box.id] + Ids(boxes)
  {
  }

  lemma {:induction false} AsManyIds(children: seq<Child>, i: nat)
    requires i <= |children|
    ensures |VisibleIds(children, i)| == |Settings(children, i)|
    decreases |children| - i
  {
    if i < |children| { AsManyIds(children, i + 1); }
  }

  lemma {:induction false} ColumnIds(m: Renders, c: Component, i: nat, heights: seq<nat>, p: Place)
    requires c.Stack? && i <= |c.children| && |heights| == |Settings(c.children, i)|
    ensures Ids(Column(m, c, i, heights, p)) == VisibleIds(c.children, i)
    decreases |c.children| - i
  {
    hide LayoutOf, Ids;
    AsManyIds(c.children, i);
    if i == |c.children| || heights == [] {
      assert Ids([]) == [] by { NoIds(); }
    } else if c.children[i].visible {
      IdOf(m, c.children[i].component, p.(height := Some(heights[0])));
      var rest := p.(y := p.y + heights[0] + c.gap);
      ColumnIds(m, c, i + 1, heights[1..], rest);
      IdsCons(LayoutOf(m, c.children[i].component, p.(height := Some(heights[0]))), Column(m, c, i + 1, heights[1..], rest));
    } else {
      ColumnIds(m, c, i + 1, heights, p);
    }
  }

  lemma NoIds()
    ensures Ids([]) == []
  {
  }

  lemma {:induction false} RowIds(m: Renders, c: Component, i: nat, widths: seq<nat>, height: int, p: Place)
    requires c.Stack? && i <= |c.children| && |widths| == |Settings(c.children, i)|
    ensures Ids(Row(m, c, i, widths, height, p)) == VisibleIds(c.children, i)
    decreases |c.children| - i
  {
    hide LayoutOf, Ids, AlignedY;
    AsManyIds(c.children, i);
    if i == |c.children| || widths == [] {
      assert Ids([]) == [] by { NoIds(); }
    } else if c.children[i].visible {
      var child := c.children[i].component;
      var childHeight := if c.align == Stretch then height else Min(height, m.height(child.id, Max(1, widths[0])));
      IdOf(m, child, Place(p.x, AlignedY(c.align, p.y, height, childHeight), widths[0], Some(childHeight), p.clip));
      RowIds(m, c, i + 1, widths[1..], height, p.(x := p.x + widths[0] + c.gap));
      var boxes := Row(m, c, i, widths, height, p);
      assert boxes[0].id == child.id;
      IdsCons(boxes[0], boxes[1..]);
      assert boxes == [boxes[0]] + boxes[1..];
    } else {
      RowIds(m, c, i + 1, widths, height, p);
    }
  }

  // The height is that of the highest, and nothing for none.
  ghost predicate IsHighest(heights: seq<int>, height: int) {
    && (forall k :: 0 <= k < |heights| ==> heights[k] <= height)
    && (height == 0 || height in heights)
  }

  lemma HighestCons(first: nat, heights: seq<int>, height: nat)
    requires IsHighest(heights, height)
    ensures IsHighest([first] + heights, Max(first, height))
  {
    var more := [first] + heights;
    assert forall k :: 0 <= k < |heights| ==> more[k + 1] == heights[k];
    assert more[0] == first;
  }

  /** What components paint at their widths. */
  function Painted(m: Renders, ids: seq<nat>, widths: seq<int>): seq<int>
    requires |ids| == |widths|
  {
    seq(|ids|, k requires 0 <= k < |ids| => m.height(ids[k], Max(1, widths[k])))
  }

  lemma PaintedCons(m: Renders, id: nat, ids: seq<nat>, width: int, widths: seq<int>)
    requires |ids| == |widths|
    ensures Painted(m, [id] + ids, [width] + widths) == [m.height(id, Max(1, width))] + Painted(m, ids, widths)
  {
  }

  lemma {:induction false} TallestIsHighest(m: Renders, children: seq<Child>, i: nat, widths: seq<nat>)
    requires i <= |children| && |widths| == |Settings(children, i)|
    ensures |VisibleIds(children, i)| == |widths|
    ensures IsHighest(Painted(m, VisibleIds(children, i), widths), Tallest(m, children, i, widths))
    decreases |children| - i
  {
    hide IsHighest, Painted;
    AsManyIds(children, i);
    if i == |children| || widths == [] {
      assert IsHighest(Painted(m, [], []), 0) by { NothingHigh(m); }
    } else if children[i].visible {
      var ids := VisibleIds(children, i + 1);
      TallestIsHighest(m, children, i + 1, widths[1..]);
      assert widths == [widths[0]] + widths[1..];
      PaintedCons(m, children[i].component.id, ids, widths[0], widths[1..]);
      HighestCons(m.height(children[i].component.id, Max(1, widths[0])), Painted(m, ids, widths[1..]),
                  Tallest(m, children, i + 1, widths[1..]));
    } else {
      TallestIsHighest(m, children, i + 1, widths);
      assert VisibleIds(children, i) == VisibleIds(children, i + 1);
    }
  }

  lemma NothingHigh(m: Renders)
    ensures IsHighest(Painted(m, [], []), 0)
  {
  }

  function Widths(boxes: seq<Box>): seq<int> { seq(|boxes|, k requires 0 <= k < |boxes| => boxes[k].rect.width) }

  // What is laid out of a stack that is given no height.
  lemma UnboundedStack(m: Renders, c: Component, p: Place) returns (sizes: seq<nat>, clip: Rect)
    requires c.Stack? && p.height.None?
    ensures |sizes| == |Settings(c.children, 0)|
    ensures var (box, width) := (LayoutOf(m, c, p), Max(1, p.width));
      && box.rect.y == p.y
      && (c.vertical ==> box.children == Column(m, c, 0, sizes, Place(p.x, p.y, width, None, clip))
                         && box.rect.height == Max(0, |sizes| - 1) * c.gap + Total(sizes))
      && (!c.vertical ==> box.children == Row(m, c, 0, sizes, box.rect.height, Place(p.x, p.y, 0, None, clip))
                          && box.rect.height == Tallest(m, c.children, 0, sizes))
  {
    hide Column, Row, Settings, Measured, Tallest, Total, Intersect, StackSizes.Allocate;
    var width := Max(1, p.width);
    sizes := StackSizes.Allocate(Settings(c.children, 0), Measured(m, c.children, 0, c.vertical, width),
                                 if c.vertical then p.height else Some(width), c.gap);
    clip := LayoutOf(m, c, p).clip;
  }

  lemma NothingStacked(m: Renders, c: Component, p: Place)
    requires c.Stack?
    ensures Column(m, c, 0, [], p) == [] && Total([]) == 0
  {
  }

  lemma RowWidths(m: Renders, c: Component, widths: seq<nat>, height: int, p: Place)
    requires c.Stack? && |widths| == |Settings(c.children, 0)| && height >= 0
    ensures Widths(Row(m, c, 0, widths, height, p)) == widths
  {
    hide Row, Settings, Offset, Aligned;
    RowStacks(m, c, 0, widths, height, p);
  }

  /** A vertical stack given no height lays out its visible children in order, and
      begins where the first of them does and ends where the last one does. */
  lemma ColumnEndsWithItsLast(m: Renders, c: Component, p: Place)
    requires c.Stack? && c.vertical && p.height.None?
    ensures var box := LayoutOf(m, c, p);
      && Ids(box.children) == VisibleIds(c.children, 0)
      && (box.children == [] ==> box.rect.height == 0)
      && (box.children != [] ==>
            var last := box.children[|box.children| - 1].rect;
            box.children[0].rect.y == box.rect.y && last.y + last.height == box.rect.y + box.rect.height)
  {
    hide LayoutOf, Column, Settings, Total, VisibleIds, Ids;
    var sizes, clip := UnboundedStack(m, c, p);
    var place := Place(p.x, p.y, Max(1, p.width), None, clip);
    ColumnIds(m, c, 0, sizes, place);
    if sizes == [] {
      NothingStacked(m, c, place);
    } else {
      ExactColumnsFill(m, c, sizes, place, LayoutOf(m, c, p).rect.height);
    }
  }

  /** A horizontal stack given no height lays out its visible children in order, and
      is as high as what the highest of them paints at the width it got. */
  lemma RowIsAsHighAsItsHighest(m: Renders, c: Component, p: Place)
    requires c.Stack? && !c.vertical && p.height.None?
    ensures var box := LayoutOf(m, c, p);
      && Ids(box.children) == VisibleIds(c.children, 0)
      && IsHighest(Painted(m, Ids(box.children), Widths(box.children)), box.rect.height)
  {
    hide LayoutOf, Row, Settings, Tallest, IsHighest, VisibleIds, Aligned, Painted;
    var sizes, clip := UnboundedStack(m, c, p);
    var box := LayoutOf(m, c, p);
    TallestIsHighest(m, c.children, 0, sizes);
    var place := Place(p.x, p.y, 0, None, clip);
    RowIds(m, c, 0, sizes, box.rect.height, place);
    RowWidths(m, c, sizes, box.rect.height, place);
  }

  // ---------------------------------------------------------------- what children ask for

  /** The size of visible child k: its basis, or else what it paints at the width of the
      stack. */
  function Asked(m: Renders, c: Component, width: int, k: nat): int
    requires c.Stack? && k < |Settings(c.children, 0)|
  {
    AsManyIds(c.children, 0);
    var (entry, id) := (Settings(c.children, 0)[k], VisibleIds(c.children, 0)[k]);
    if entry.basis.Some? then entry.basis.value else if c.vertical then m.height(id, width) else m.width(id, width)
  }

  lemma {:induction false} MeasuredIsAsked(m: Renders, children: seq<Child>, i: nat, vertical: bool, width: int, k: nat)
    requires width > 0 && i <= |children| && k < |Settings(children, i)|
    ensures |Measured(m, children, i, vertical, width)| == |VisibleIds(children, i)| == |Settings(children, i)|
    ensures var (entry, id) := (Settings(children, i)[k], VisibleIds(children, i)[k]);
      Measured(m, children, i, vertical, width)[k] ==
        if entry.basis.Some? then entry.basis.value else if vertical then m.height(id, width) else m.width(id, width)
    decreases |children| - i
  {
    AsManyIds(children, i);
    AsManyMeasured(m, children, i, vertical, width);
    if !children[i].visible {
      MeasuredIsAsked(m, children, i + 1, vertical, width, k);
    } else if k > 0 {
      MeasuredIsAsked(m, children, i + 1, vertical, width, k - 1);
    }
  }

  lemma {:induction false} AsManyMeasured(m: Renders, children: seq<Child>, i: nat, vertical: bool, width: int)
    requires i <= |children|
    ensures |Measured(m, children, i, vertical, width)| == |Settings(children, i)|
    decreases |children| - i
  {
    if i < |children| { AsManyMeasured(m, children, i + 1, vertical, width); }
  }

  /** A column given no height gives every child what it asks for, or the nearest size
      between its bounds. */
  lemma ColumnGivesWhatIsAsked(m: Renders, c: Component, p: Place, k: nat)
    requires c.Stack? && c.vertical && p.height.None? && k < |LayoutOf(m, c, p).children|
    ensures k < |Settings(c.children, 0)|
    ensures var (box, entry) := (LayoutOf(m, c, p), Settings(c.children, 0)[k]);
      var (size, asked) := (box.children[k].rect.height, Asked(m, c, box.rect.width, k));
      var (low, high) := (entry.minSize.GetOr(0), entry.maxSize.GetOr(StackSizes.MAX_SAFE_INTEGER));
      && low <= size && (size <= high || size == low)
      && (low <= asked <= high ==> size == asked)
      && (asked < low ==> size == low) && (asked > high >= low ==> size == high)
  {
    var width := Max(1, p.width);
    var entries, intrinsic := Settings(c.children, 0), Measured(m, c.children, 0, true, width);
    ColumnOfBases(m, c, p);
    hide LayoutOf, Settings, Measured, VisibleIds;
    MeasuredIsAsked(m, c.children, 0, true, width, k);
    StackShares.BasesAreNearest(entries, intrinsic, |entries|, k);
  }

  lemma ColumnOfBases(m: Renders, c: Component, p: Place)
    requires c.Stack? && c.vertical && p.height.None?
    ensures var width := Max(1, p.width);
      var entries, intrinsic := Settings(c.children, 0), Measured(m, c.children, 0, true, width);
      var base := StackSizes.BaseSizes(entries, intrinsic, |entries|);
      && LayoutOf(m, c, p).rect.width == width && |LayoutOf(m, c, p).children| == |entries| == |base|
      && forall k :: 0 <= k < |base| ==> LayoutOf(m, c, p).children[k].rect.height == base[k]
  {
    hide Column, Settings, Measured, Tallest, Total, Intersect, Offset, StackSizes.BaseSizes, StackSizes.Distribute;
    var width := Max(1, p.width);
    var entries, intrinsic := Settings(c.children, 0), Measured(m, c.children, 0, true, width);
    var sizes := StackSizes.Allocate(entries, intrinsic, None, c.gap);
    ColumnStacks(m, c, 0, sizes, Place(p.x, p.y, width, None, LayoutOf(m, c, p).clip));
  }

  // ---------------------------------------------------------------- scroll views

  lemma {:induction false} WidthOf(m: Renders, c: Component, p: Place)
    ensures LayoutOf(m, c, p).rect.width == Max(1, p.width)
  {
    hide Column, Row, Settings, Measured, Tallest, Total, Reclip, Translate, Intersect, StackSizes.Allocate,
      ScrollState.UpdateLayout, ContentWidth;
  }

  /** A scroll view shares its width between its content and, where it keeps a column
      for one, its scrollbar, but never leaves the content without any; given no height
      it is as high as its content. */
  lemma ScrollFitsItsContent(m: Renders, c: Component, p: Place)
    requires c.Scroll?
    ensures var box := LayoutOf(m, c, p);
      && |box.children| == 1
      && var content := box.children[0].rect;
        && content.width > 0
        && content.width + (if c.reservesColumn && box.rect.width >= 2 then 1 else 0) == box.rect.width
        && (p.height.None? ==> box.rect.height == content.height)
  {
    hide Column, Row, Settings, Measured, Tallest, Total, Intersect, StackSizes.Allocate, ScrollState.UpdateLayout;
    WidthOf(m, c.child, Place(p.x, p.y - c.view.top, ContentWidth(c, Max(1, p.width)), None, p.clip));
  }
}
