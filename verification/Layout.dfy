// The layout tree (internal/tui/layout.go): boxes with a rectangle and a clip,
// scroll views whose content is laid out, moved and clipped again, and hit
// testing that skips subtrees by their clip.

module Layout {
  import opened Options
  import opened ScrollViews
  import StackSizes

  datatype Rect = Rect(x: int, y: int, width: int, height: int)

  predicate Contains(r: Rect, x: int, y: int) {
    r.x <= x < r.x + r.width && r.y <= y < r.y + r.height
  }

  function Intersect(a: Rect, b: Rect): Rect {
    var x, y := Max(a.x, b.x), Max(a.y, b.y);
    Rect(x, y,
         Max(0, Min(a.x + a.width, b.x + b.width) - x),
         Max(0, Min(a.y + a.height, b.y + b.height) - y))
  }

  datatype Align = Stretch | Start | Center | End

  /** What is laid out. A leaf paints itself; a scroll view shows part of its one
      child; a stack divides its space among its visible children. */
  datatype Component =
    | Leaf(id: nat)
    | Scroll(id: nat, child: Component, view: ScrollState, reservesColumn: bool)
    | Stack(id: nat, vertical: bool, children: seq<Child>, gap: nat, align: Align)

  datatype Child = Child(component: Component, settings: StackSizes.Entry, visible: bool)

  /** How many rows and columns a component paints at a given width. */
  datatype Renders = Renders(height: (nat, int) -> nat, width: (nat, int) -> nat)

  datatype Box = Box(id: nat, rect: Rect, clip: Rect, children: seq<Box>, view: Option<ScrollState>)

  function ContentWidth(c: Component, width: int): int
    requires c.Scroll?
  {
    if c.reservesColumn && width > 1 then width - 1 else width
  }

  /** The settings and the sizes measured for the visible children from index i on. */
  function Settings(children: seq<Child>, i: nat): seq<StackSizes.Entry>
    requires i <= |children|
    decreases |children| - i
  {
    if i == |children| then []
    else (if children[i].visible then [children[i].settings] else []) + Settings(children, i + 1)
  }

  function Measured(m: Renders, children: seq<Child>, i: nat, vertical: bool, width: int): seq<int>
    requires i <= |children|
    decreases |children| - i
  {
    if i == |children| then []
    else
      var c := children[i];
      var size: int :=
        if c.settings.basis.Some? then c.settings.basis.value
        else if vertical then m.height(c.component.id, Max(1, width))
        else m.width(c.component.id, Max(1, width));
      (if c.visible then [size] else []) + Measured(m, children, i + 1, vertical, width)
  }

  /** The tallest visible child at its allocated width. */
  function Tallest(m: Renders, children: seq<Child>, i: nat, widths: seq<nat>): nat
    requires i <= |children|
    decreases |children| - i
  {
    if i == |children| || widths == [] then 0
    else if !children[i].visible then Tallest(m, children, i + 1, widths)
    else Max(m.height(children[i].component.id, Max(1, widths[0])), Tallest(m, children, i + 1, widths[1..]))
  }

  function Total(sizes: seq<nat>): nat {
    if sizes == [] then 0 else sizes[0] + Total(sizes[1..])
  }

  /** A component placed at a point, with a width, perhaps a height, and a clip. */
  datatype Place = Place(x: int, y: int, width: int, height: Option<int>, clip: Rect)

  function LayoutOf(m: Renders, c: Component, p: Place): Box
    decreases c, 1, 0
  {
    var width := Max(1, p.width);
    match c
    case Leaf(id) =>
      var height := if p.height.Some? then Max(0, p.height.value) else m.height(id, width);
      var rect := Rect(p.x, p.y, width, height);
      Box(id, rect, Intersect(p.clip, rect), [], None)
    case Scroll(id, child, view, _) =>
      var content := LayoutOf(m, child, Place(p.x, p.y - view.top, ContentWidth(c, width), None, p.clip));
      var height := if p.height.Some? then Max(0, p.height.value) else content.rect.height;
      var next := view.UpdateLayout(content.rect.height, height);
      var rect := Rect(p.x, p.y, width, height);
      var clip := Intersect(p.clip, rect);
      Box(id, rect, clip, [Reclip(Translate(content, view.top - next.top), clip)], Some(next))
    case Stack(id, vertical, children, gap, _) =>
      var settings := Settings(children, 0);
      var sizes := StackSizes.Allocate(settings, Measured(m, children, 0, vertical, width),
                                       if vertical then p.height else Some(width), gap);
      var natural := if vertical then Max(0, |settings| - 1) * gap + Total(sizes) else Tallest(m, children, 0, sizes);
      var height := if p.height.Some? then Max(0, p.height.value) else natural;
      var rect := Rect(p.x, p.y, width, height);
      var clip := Intersect(p.clip, rect);
      Box(id, rect, clip,
          if vertical then Column(m, c, 0, sizes, Place(p.x, p.y, width, None, clip))
          else Row(m, c, 0, sizes, height, Place(p.x, p.y, 0, None, clip)),
          None)
  }

  /** Visible children from index i on, one below the other. */
  function Column(m: Renders, c: Component, i: nat, heights: seq<nat>, p: Place): seq<Box>
    requires c.Stack? && i <= |c.children|
    decreases c, 0, |c.children| - i
  {
    if i == |c.children| || heights == [] then []
    else if !c.children[i].visible then Column(m, c, i + 1, heights, p)
    else
      [LayoutOf(m, c.children[i].component, p.(height := Some(heights[0])))]
        + Column(m, c, i + 1, heights[1..], p.(y := p.y + heights[0] + c.gap))
  }

  function AlignedY(align: Align, y: int, height: int, childHeight: int): int {
    match align
    case Center => y + Half(height - childHeight)
    case End => y + height - childHeight
    case _ => y
  }

  // Half of a non-negative difference, as integer division gives it.
  function Half(n: int): int { if n < 0 then -((-n) / 2) else n / 2 }

  /** Visible children from index i on, side by side; one without width is kept as
      an empty box. */
  function Row(m: Renders, c: Component, i: nat, widths: seq<nat>, height: int, p: Place): seq<Box>
    requires c.Stack? && i <= |c.children|
    decreases c, 0, |c.children| - i
  {
    if i == |c.children| || widths == [] then []
    else if !c.children[i].visible then Row(m, c, i + 1, widths, height, p)
    else
      var child := c.children[i].component;
      var childHeight := if c.align == Stretch then height else Min(height, m.height(child.id, Max(1, widths[0])));
      var y := AlignedY(c.align, p.y, height, childHeight);
      var box :=
        if widths[0] == 0 then Box(child.id, Rect(p.x, y, 0, childHeight), Rect(p.x, y, 0, 0), [], None)
        else LayoutOf(m, child, Place(p.x, y, widths[0], Some(childHeight), p.clip));
      [box] + Row(m, c, i + 1, widths[1..], height, p.(x := p.x + widths[0] + c.gap))
  }

  /** Moves a subtree down; clips are left behind. */
  function Translate(box: Box, deltaY: int): Box
    decreases box, 1
  {
    box.(rect := box.rect.(y := box.rect.y + deltaY), children := TranslateAll(box.children, deltaY))
  }

  function TranslateAll(boxes: seq<Box>, deltaY: int): seq<Box>
    decreases boxes
  {
    if boxes == [] then [] else [Translate(boxes[0], deltaY)] + TranslateAll(boxes[1..], deltaY)
  }

  /** Recomputes the clips of a subtree from its rectangles. */
  function Reclip(box: Box, parentClip: Rect): Box
    decreases box, 1
  {
    var clip := Intersect(parentClip, box.rect);
    box.(clip := clip, children := ReclipAll(box.children, clip))
  }

  function ReclipAll(boxes: seq<Box>, parentClip: Rect): seq<Box>
    decreases boxes
  {
    if boxes == [] then [] else [Reclip(boxes[0], parentClip)] + ReclipAll(boxes[1..], parentClip)
  }

  // ---------------------------------------------------------------- clips

  /** Inside the clip of a box are exactly the points inside both its rectangle and
      the clip it was given, and the same holds below it. */
  ghost predicate ClipsExactly(box: Box, outer: Rect)
    decreases box
  {
    && (forall x, y :: Contains(box.clip, x, y) <==> Contains(outer, x, y) && Contains(box.rect, x, y))
    && forall i :: 0 <= i < |box.children| ==> ClipsExactly(box.children[i], box.clip)
  }

  ghost predicate AllClipExactly(boxes: seq<Box>, outer: Rect) {
    forall i :: 0 <= i < |boxes| ==> ClipsExactly(boxes[i], outer)
  }

  lemma IntersectContains(a: Rect, b: Rect, x: int, y: int)
    ensures Contains(Intersect(a, b), x, y) <==> Contains(a, x, y) && Contains(b, x, y)
  {
  }

  lemma {:induction false} ReclipClips(box: Box, outer: Rect)
    ensures ClipsExactly(Reclip(box, outer), outer)
    decreases box, 1
  {
    forall x, y ensures Contains(Intersect(outer, box.rect), x, y) <==> Contains(outer, x, y) && Contains(box.rect, x, y) {
      IntersectContains(outer, box.rect, x, y);
    }
    ReclipAllClips(box.children, Intersect(outer, box.rect));
  }

  lemma {:induction false} ReclipAllClips(boxes: seq<Box>, outer: Rect)
    ensures AllClipExactly(ReclipAll(boxes, outer), outer)
    decreases boxes
  {
    if boxes != [] {
      ReclipClips(boxes[0], outer);
      ReclipAllClips(boxes[1..], outer);
    }
  }

  /** Layout clips every box to its rectangle and the clips around it, through
      nested scroll views and boxes without width. */
  lemma {:induction false} LayoutClips(m: Renders, c: Component, p: Place)
    ensures ClipsExactly(LayoutOf(m, c, p), p.clip)
    decreases c, 1, 0
  {
    hide Contains, Intersect, Reclip, Translate, Column, Row, Settings, Measured, Tallest, Total,
      StackSizes.Allocate, ScrollState.UpdateLayout, ContentWidth;
    var box := LayoutOf(m, c, p);
    forall x, y ensures Contains(box.clip, x, y) <==> Contains(p.clip, x, y) && Contains(box.rect, x, y) {
      IntersectContains(p.clip, box.rect, x, y);
    }
    match c
    case Leaf(_) =>
    case Scroll(_, child, view, _) =>
      var content := LayoutOf(m, child, Place(p.x, p.y - view.top, ContentWidth(c, box.rect.width), None, p.clip));
      ReclipClips(Translate(content, view.top - box.view.value.top), box.clip);
    case Stack(_, vertical, children, gap, _) =>
      var settings := Settings(children, 0);
      var sizes := StackSizes.Allocate(settings, Measured(m, children, 0, vertical, box.rect.width),
                                       if vertical then p.height else Some(box.rect.width), gap);
      if vertical {
        ColumnClips(m, c, 0, sizes, Place(p.x, p.y, box.rect.width, None, box.clip));
      } else {
        RowClips(m, c, 0, sizes, box.rect.height, Place(p.x, p.y, 0, None, box.clip));
      }
  }

  lemma {:induction false} ColumnClips(m: Renders, c: Component, i: nat, heights: seq<nat>, p: Place)
    requires c.Stack? && i <= |c.children|
    ensures AllClipExactly(Column(m, c, i, heights, p), p.clip)
    decreases c, 0, |c.children| - i
  {
    hide LayoutOf, ClipsExactly;
    if i < |c.children| && heights != [] {
      if c.children[i].visible {
        LayoutClips(m, c.children[i].component, p.(height := Some(heights[0])));
        ColumnClips(m, c, i + 1, heights[1..], p.(y := p.y + heights[0] + c.gap));
      } else {
        ColumnClips(m, c, i + 1, heights, p);
      }
    }
  }

  lemma EmptyBoxClips(box: Box, outer: Rect)
    requires box.rect.width == 0 && box.clip.width == 0 && box.children == []
    ensures ClipsExactly(box, outer)
  {
  }

  lemma {:induction false} RowClips(m: Renders, c: Component, i: nat, widths: seq<nat>, height: int, p: Place)
    requires c.Stack? && i <= |c.children|
    ensures AllClipExactly(Row(m, c, i, widths, height, p), p.clip)
    decreases c, 0, |c.children| - i
  {
    hide LayoutOf, ClipsExactly, AlignedY;
    if i < |c.children| && widths != [] {
      if c.children[i].visible {
        var child := c.children[i].component;
        var childHeight := if c.align == Stretch then height else Min(height, m.height(child.id, Max(1, widths[0])));
        var y := AlignedY(c.align, p.y, height, childHeight);
        if widths[0] != 0 {
          LayoutClips(m, child, Place(p.x, y, widths[0], Some(childHeight), p.clip));
        } else {
          EmptyBoxClips(Box(child.id, Rect(p.x, y, 0, childHeight), Rect(p.x, y, 0, 0), [], None), p.clip);
        }
        RowClips(m, c, i + 1, widths[1..], height, p.(x := p.x + widths[0] + c.gap));
      } else {
        RowClips(m, c, i + 1, widths, height, p);
      }
    }
  }

  // ---------------------------------------------------------------- hit testing

  datatype Hit = Hit(box: Box, depth: nat)

  /** Every box of the tree with its depth, parents first. */
  function AllBoxes(box: Box, depth: nat): seq<Hit>
    decreases box, 1
  {
    [Hit(box, depth)] + AllBoxesIn(box.children, depth + 1)
  }

  function AllBoxesIn(boxes: seq<Box>, depth: nat): seq<Hit>
    decreases boxes
  {
    if boxes == [] then [] else AllBoxes(boxes[0], depth) + AllBoxesIn(boxes[1..], depth)
  }

  function AtPoint(hits: seq<Hit>, x: int, y: int): seq<Hit> {
    if hits == [] then []
    else (if Contains(hits[0].box.clip, x, y) then [hits[0]] else []) + AtPoint(hits[1..], x, y)
  }

  /** The walk of the source: a subtree whose clip misses the point is skipped. */
  function Visit(box: Box, depth: nat, x: int, y: int): seq<Hit>
    decreases box, 1
  {
    if !Contains(box.clip, x, y) then [] else [Hit(box, depth)] + VisitAll(box.children, depth + 1, x, y)
  }

  function VisitAll(boxes: seq<Box>, depth: nat, x: int, y: int): seq<Hit>
    decreases boxes
  {
    if boxes == [] then [] else Visit(boxes[0], depth, x, y) + VisitAll(boxes[1..], depth, x, y)
  }

  lemma {:induction false} AtPointAppends(a: seq<Hit>, b: seq<Hit>, x: int, y: int)
    ensures AtPoint(a + b, x, y) == AtPoint(a, x, y) + AtPoint(b, x, y)
  {
    hide Contains;
    if a == [] {
      assert a + b == b;
    } else {
      assert (a + b)[1..] == a[1..] + b && (a + b)[0] == a[0];
      var head := if Contains(a[0].box.clip, x, y) then [a[0]] else [];
      assert (head + AtPoint(a[1..], x, y)) + AtPoint(b, x, y) == head + (AtPoint(a[1..], x, y) + AtPoint(b, x, y));
      AtPointAppends(a[1..], b, x, y);
    }
  }

  // Nothing below a box that is missed can be hit.
  lemma {:induction false} MissedSubtree(box: Box, outer: Rect, depth: nat, x: int, y: int)
    requires ClipsExactly(box, outer) && !Contains(outer, x, y)
    ensures AtPoint(AllBoxes(box, depth), x, y) == []
    decreases box, 1
  {
    assert !Contains(box.clip, x, y);
    MissedSubtrees(box.children, box.clip, depth + 1, x, y);
    assert AllBoxes(box, depth)[1..] == AllBoxesIn(box.children, depth + 1);
  }

  lemma {:induction false} MissedSubtrees(boxes: seq<Box>, outer: Rect, depth: nat, x: int, y: int)
    requires AllClipExactly(boxes, outer) && !Contains(outer, x, y)
    ensures AtPoint(AllBoxesIn(boxes, depth), x, y) == []
    decreases boxes
  {
    if boxes != [] {
      MissedSubtree(boxes[0], outer, depth, x, y);
      MissedSubtrees(boxes[1..], outer, depth, x, y);
      AtPointAppends(AllBoxes(boxes[0], depth), AllBoxesIn(boxes[1..], depth), x, y);
    }
  }

  lemma {:induction false} VisitIsExhaustive(box: Box, outer: Rect, depth: nat, x: int, y: int)
    requires ClipsExactly(box, outer)
    ensures Visit(box, depth, x, y) == AtPoint(AllBoxes(box, depth), x, y)
    decreases box, 1
  {
    var all := AllBoxes(box, depth);
    assert all[0] == Hit(box, depth) && all[1..] == AllBoxesIn(box.children, depth + 1);
    if Contains(box.clip, x, y) {
      VisitAllIsExhaustive(box.children, box.clip, depth + 1, x, y);
    } else {
      MissedSubtrees(box.children, box.clip, depth + 1, x, y);
    }
  }

  lemma {:induction false} VisitAllIsExhaustive(boxes: seq<Box>, outer: Rect, depth: nat, x: int, y: int)
    requires AllClipExactly(boxes, outer)
    ensures VisitAll(boxes, depth, x, y) == AtPoint(AllBoxesIn(boxes, depth), x, y)
    decreases boxes
  {
    if boxes != [] {
      VisitIsExhaustive(boxes[0], outer, depth, x, y);
      VisitAllIsExhaustive(boxes[1..], outer, depth, x, y);
      AtPointAppends(AllBoxes(boxes[0], depth), AllBoxesIn(boxes[1..], depth), x, y);
    }
  }

  /** Stable insertion, deepest first. */
  function InsertByDepth(hit: Hit, sorted: seq<Hit>): seq<Hit> {
    if sorted == [] || sorted[0].depth < hit.depth then [hit] + sorted
    else [sorted[0]] + InsertByDepth(hit, sorted[1..])
  }

  function SortByDepth(hits: seq<Hit>): seq<Hit> {
    if hits == [] then [] else InsertByDepth(hits[|hits| - 1], SortByDepth(hits[..|hits| - 1]))
  }

  /** The boxes at a point, deepest first. */
  function BoxesAt(root: Box, x: int, y: int): seq<Hit> {
    SortByDepth(Visit(root, 0, x, y))
  }

  ghost predicate DeepestFirst(hits: seq<Hit>) {
    forall i, j :: 0 <= i < j < |hits| ==> hits[i].depth >= hits[j].depth
  }

  // The hits at one depth, in order.
  function AtDepth(hits: seq<Hit>, depth: nat): seq<Hit> {
    if hits == [] then []
    else AtDepth(hits[..|hits| - 1], depth)
         + (if hits[|hits| - 1].depth == depth then [hits[|hits| - 1]] else [])
  }

  lemma {:induction false} AtDepthPrepends(hit: Hit, hits: seq<Hit>, depth: nat)
    ensures AtDepth([hit] + hits, depth) == (if hit.depth == depth then [hit] else []) + AtDepth(hits, depth)
  {
    var all := [hit] + hits;
    if hits == [] {
      assert all[..0] == [];
    } else {
      var n := |hits| - 1;
      assert all[..n + 1] == [hit] + hits[..n] && all[n + 1] == hits[n];
      AtDepthPrepends(hit, hits[..n], depth);
    }
  }

  // Among hits no deeper than a bound, one below it starts nothing at a greater depth.
  lemma {:induction false} NothingDeeper(hits: seq<Hit>, depth: nat)
    requires forall i :: 0 <= i < |hits| ==> hits[i].depth < depth
    ensures AtDepth(hits, depth) == []
  {
    if hits != [] {
      NothingDeeper(hits[..|hits| - 1], depth);
    }
  }

  lemma {:induction false} InsertSorts(hit: Hit, sorted: seq<Hit>)
    requires DeepestFirst(sorted)
    ensures var r := InsertByDepth(hit, sorted);
      && r != [] && DeepestFirst(r)
      && (r[0] == hit || (sorted != [] && r[0] == sorted[0]))
    ensures forall d: nat ::
      AtDepth(InsertByDepth(hit, sorted), d) == AtDepth(sorted, d) + (if hit.depth == d then [hit] else [])
  {
    hide AtDepth;
    if sorted != [] && sorted[0].depth >= hit.depth {
      var rest := sorted[1..];
      InsertSorts(hit, rest);
      var r := InsertByDepth(hit, rest);
      assert sorted == [sorted[0]] + rest;
      forall d: nat ensures AtDepth([sorted[0]] + r, d) == AtDepth(sorted, d) + (if hit.depth == d then [hit] else []) {
        AtDepthPrepends(sorted[0], r, d);
        AtDepthPrepends(sorted[0], rest, d);
      }
    } else {
      forall d: nat ensures AtDepth([hit] + sorted, d) == AtDepth(sorted, d) + (if hit.depth == d then [hit] else []) {
        AtDepthPrepends(hit, sorted, d);
        if hit.depth == d {
          NothingDeeper(sorted, d);
        }
      }
    }
  }

  /** Deepest first, and in their original order at each depth. */
  lemma {:induction false} SortSorts(hits: seq<Hit>)
    ensures DeepestFirst(SortByDepth(hits))
    ensures forall d: nat :: AtDepth(SortByDepth(hits), d) == AtDepth(hits, d)
  {
    if hits != [] {
      SortSorts(hits[..|hits| - 1]);
      InsertSorts(hits[|hits| - 1], SortByDepth(hits[..|hits| - 1]));
    }
  }

  /** Pruned hit testing equals exhaustive search: on any laid-out tree the boxes
      reported for a point are exactly those whose clip contains it, deepest first
      and in tree order at each depth. */
  lemma PrunedHitTestIsExhaustive(m: Renders, c: Component, p: Place, x: int, y: int)
    ensures var root := LayoutOf(m, c, p);
      && DeepestFirst(BoxesAt(root, x, y))
      && forall d: nat :: AtDepth(BoxesAt(root, x, y), d) == AtDepth(AtPoint(AllBoxes(root, 0), x, y), d)
  {
    hide LayoutOf, AtDepth;
    LayoutClips(m, c, p);
    var root := LayoutOf(m, c, p);
    VisitIsExhaustive(root, p.clip, 0, x, y);
    SortSorts(Visit(root, 0, x, y));
  }

  // ---------------------------------------------------------------- translation

  /** A tree without its clips. */
  function Strip(box: Box): Box
    decreases box, 1
  {
    box.(clip := Rect(0, 0, 0, 0), children := StripAll(box.children))
  }

  function StripAll(boxes: seq<Box>): seq<Box>
    decreases boxes
  {
    if boxes == [] then [] else [Strip(boxes[0])] + StripAll(boxes[1..])
  }

  lemma {:induction false} ReclipOnlyClips(box: Box, outer: Rect)
    ensures Strip(Reclip(box, outer)) == Strip(box)
    decreases box, 1
  {
    hide Intersect;
    ReclipAllOnlyClips(box.children, Intersect(outer, box.rect));
  }

  lemma {:induction false} ReclipAllOnlyClips(boxes: seq<Box>, outer: Rect)
    ensures StripAll(ReclipAll(boxes, outer)) == StripAll(boxes)
    decreases boxes
  {
    if boxes != [] {
      ReclipOnlyClips(boxes[0], outer);
      ReclipAllOnlyClips(boxes[1..], outer);
      assert ReclipAll(boxes, outer)[1..] == ReclipAll(boxes[1..], outer);
    }
  }

  // The new clips of a tree depend on nothing but its rectangles.
  lemma {:induction false} ReclipForgetsClips(a: Box, b: Box, outer: Rect)
    requires Strip(a) == Strip(b)
    ensures Reclip(a, outer) == Reclip(b, outer)
    decreases a, 1
  {
    hide Intersect;
    assert a.rect == Strip(a).rect && b.rect == Strip(b).rect;
    ReclipAllForgetsClips(a.children, b.children, Intersect(outer, a.rect));
  }

  lemma {:induction false} ReclipAllForgetsClips(a: seq<Box>, b: seq<Box>, outer: Rect)
    requires StripAll(a) == StripAll(b)
    ensures ReclipAll(a, outer) == ReclipAll(b, outer)
    decreases a
  {
    if a != [] {
      assert StripAll(a)[0] == Strip(a[0]) && StripAll(a)[1..] == StripAll(a[1..]);
      assert b != [] && StripAll(b)[0] == Strip(b[0]) && StripAll(b)[1..] == StripAll(b[1..]);
      ReclipForgetsClips(a[0], b[0], outer);
      ReclipAllForgetsClips(a[1..], b[1..], outer);
    }
  }

  lemma {:induction false} TranslateStrips(box: Box, d: int)
    ensures Strip(Translate(box, d)) == Translate(Strip(box), d)
    decreases box, 1
  {
    TranslateAllStrips(box.children, d);
  }

  lemma {:induction false} TranslateAllStrips(boxes: seq<Box>, d: int)
    ensures StripAll(TranslateAll(boxes, d)) == TranslateAll(StripAll(boxes), d)
    decreases boxes
  {
    if boxes != [] {
      TranslateStrips(boxes[0], d);
      TranslateAllStrips(boxes[1..], d);
      assert TranslateAll(boxes, d)[1..] == TranslateAll(boxes[1..], d);
      assert StripAll(boxes)[1..] == StripAll(boxes[1..]);
    }
  }

  lemma {:induction false} TranslateTwice(box: Box, d: int, e: int)
    ensures Translate(Translate(box, d), e) == Translate(box, d + e)
    decreases box, 1
  {
    TranslateAllTwice(box.children, d, e);
  }

  lemma {:induction false} TranslateAllTwice(boxes: seq<Box>, d: int, e: int)
    ensures TranslateAll(TranslateAll(boxes, d), e) == TranslateAll(boxes, d + e)
    decreases boxes
  {
    if boxes != [] {
      TranslateTwice(boxes[0], d, e);
      TranslateAllTwice(boxes[1..], d, e);
      assert TranslateAll(boxes, d)[1..] == TranslateAll(boxes[1..], d);
    }
  }

  lemma TranslateAllAppends(box: Box, boxes: seq<Box>, d: int)
    ensures TranslateAll([box] + boxes, d) == [Translate(box, d)] + TranslateAll(boxes, d)
    ensures StripAll([box] + boxes) == [Strip(box)] + StripAll(boxes)
  {
    assert ([box] + boxes)[1..] == boxes;
  }

  lemma ConsTranslates(box: Box, box': Box, rest: seq<Box>, rest': seq<Box>, d: int)
    requires Strip(box') == Translate(Strip(box), d) && StripAll(rest') == TranslateAll(StripAll(rest), d)
    ensures StripAll([box'] + rest') == TranslateAll(StripAll([box] + rest), d)
  {
    hide Strip, Translate;
    TranslateAllAppends(box, rest, d);
    TranslateAllAppends(Strip(box), StripAll(rest), d);
    TranslateAllAppends(box', rest', d);
  }

  lemma NoBoxesTranslate(d: int)
    ensures StripAll([]) == [] && TranslateAll([], d) == []
  {
  }

  lemma EmptyBoxTranslates(box: Box, box': Box, d: int)
    requires box.children == box'.children == [] && box'.rect == box.rect.(y := box.rect.y + d)
    requires box.id == box'.id && box.view == box'.view
    ensures Strip(box') == Translate(Strip(box), d)
  {
  }

  function Lower(p: Place, d: int, clip: Rect): Place {
    p.(y := p.y + d, clip := clip)
  }

  /** Laying out lower gives the same rectangles as laying out and moving down,
      whatever the clips; scroll positions do not depend on where a view is. */
  lemma {:induction false} LayoutTranslates(m: Renders, c: Component, p: Place, d: int, clip: Rect)
    ensures Strip(LayoutOf(m, c, Lower(p, d, clip))) == Translate(Strip(LayoutOf(m, c, p)), d)
    decreases c, 1, 0
  {
    hide Intersect, Settings, Measured, Tallest, Total, StackSizes.Allocate, ScrollState.UpdateLayout, ContentWidth,
      Reclip, Column, Row;
    var q := Lower(p, d, clip);
    var width := Max(1, p.width);
    match c
    case Leaf(_) =>
    case Scroll(_, child, view, _) =>
      ScrollTranslates(m, c, p, d, clip);
    case Stack(_, vertical, children, gap, _) =>
      var a, b := LayoutOf(m, c, p), LayoutOf(m, c, q);
      var settings := Settings(children, 0);
      var sizes := StackSizes.Allocate(settings, Measured(m, children, 0, vertical, width),
                                       if vertical then p.height else Some(width), gap);
      if vertical {
        ColumnTranslates(m, c, 0, sizes, Place(p.x, p.y, width, None, a.clip), d, b.clip);
      } else {
        RowTranslates(m, c, 0, sizes, a.rect.height, Place(p.x, p.y, 0, None, a.clip), d, b.clip);
      }
  }

  lemma {:induction false} ScrollTranslates(m: Renders, c: Component, p: Place, d: int, clip: Rect)
    requires c.Scroll?
    ensures Strip(LayoutOf(m, c, Lower(p, d, clip))) == Translate(Strip(LayoutOf(m, c, p)), d)
    decreases c, 0, 0
  {
    hide Intersect, ScrollState.UpdateLayout, ContentWidth, Reclip;
    var q := Lower(p, d, clip);
    var a, b := LayoutOf(m, c, p), LayoutOf(m, c, q);
    var inner := Place(p.x, p.y - c.view.top, ContentWidth(c, Max(1, p.width)), None, p.clip);
    var content := LayoutOf(m, c.child, inner);
    var content' := LayoutOf(m, c.child, Lower(inner, d, clip));
    LayoutTranslates(m, c.child, inner, d, clip);
    assert content'.rect.height == content.rect.height by {
      assert Strip(content').rect == Translate(Strip(content), d).rect;
    }
    var k := c.view.top - a.view.value.top;
    calc {
      Strip(Reclip(Translate(content', k), b.clip));
      { ReclipOnlyClips(Translate(content', k), b.clip); TranslateStrips(content', k); }
      Translate(Translate(Strip(content), d), k);
      { TranslateTwice(Strip(content), d, k); TranslateTwice(Strip(content), k, d); }
      Translate(Translate(Strip(content), k), d);
      { ReclipOnlyClips(Translate(content, k), a.clip); TranslateStrips(content, k); }
      Translate(Strip(Reclip(Translate(content, k), a.clip)), d);
    }
    TranslateAllAppends(Reclip(Translate(content, k), a.clip), [], 0);
    TranslateAllAppends(Reclip(Translate(content', k), b.clip), [], 0);
    TranslateAllAppends(Strip(Reclip(Translate(content, k), a.clip)), [], d);
    assert a.children == [Reclip(Translate(content, k), a.clip)] + [];
    assert b.children == [Reclip(Translate(content', k), b.clip)] + [];
  }

  lemma {:induction false} ColumnTranslates(m: Renders, c: Component, i: nat, heights: seq<nat>, p: Place, d: int, clip: Rect)
    requires c.Stack? && i <= |c.children|
    ensures StripAll(Column(m, c, i, heights, Lower(p, d, clip))) == TranslateAll(StripAll(Column(m, c, i, heights, p)), d)
    decreases c, 0, |c.children| - i
  {
    hide LayoutOf, Strip, Translate, StripAll, TranslateAll;
    NoBoxesTranslate(d);
    if i < |c.children| && heights != [] {
      if c.children[i].visible {
        var inner, next := p.(height := Some(heights[0])), p.(y := p.y + heights[0] + c.gap);
        LayoutTranslates(m, c.children[i].component, inner, d, clip);
        ColumnTranslates(m, c, i + 1, heights[1..], next, d, clip);
        var box, rest := LayoutOf(m, c.children[i].component, inner), Column(m, c, i + 1, heights[1..], next);
        ConsTranslates(box, LayoutOf(m, c.children[i].component, Lower(inner, d, clip)),
                       rest, Column(m, c, i + 1, heights[1..], Lower(next, d, clip)), d);
      } else {
        ColumnTranslates(m, c, i + 1, heights, p, d, clip);
      }
    }
  }

  lemma AlignedYShifts(align: Align, y: int, height: int, childHeight: int, d: int)
    ensures AlignedY(align, y + d, height, childHeight) == AlignedY(align, y, height, childHeight) + d
  {
  }

  lemma {:induction false} RowTranslates(m: Renders, c: Component, i: nat, widths: seq<nat>, height: int, p: Place, d: int, clip: Rect)
    requires c.Stack? && i <= |c.children|
    ensures StripAll(Row(m, c, i, widths, height, Lower(p, d, clip))) == TranslateAll(StripAll(Row(m, c, i, widths, height, p)), d)
    decreases c, 0, |c.children| - i
  {
    hide LayoutOf, AlignedY, Strip, Translate, StripAll, TranslateAll;
    NoBoxesTranslate(d);
    if i < |c.children| && widths != [] {
      if c.children[i].visible {
        var child := c.children[i].component;
        var childHeight := if c.align == Stretch then height else Min(height, m.height(child.id, Max(1, widths[0])));
        var y := AlignedY(c.align, p.y, height, childHeight);
        var inner, next := Place(p.x, y, widths[0], Some(childHeight), p.clip), p.(x := p.x + widths[0] + c.gap);
        RowTranslates(m, c, i + 1, widths[1..], height, next, d, clip);
        var box, box' :=
          Box(child.id, Rect(p.x, y, 0, childHeight), Rect(p.x, y, 0, 0), [], None),
          Box(child.id, Rect(p.x, y + d, 0, childHeight), Rect(p.x, y + d, 0, 0), [], None);
        if widths[0] != 0 {
          LayoutTranslates(m, child, inner, d, clip);
          box, box' := LayoutOf(m, child, inner), LayoutOf(m, child, Lower(inner, d, clip));
        } else {
          EmptyBoxTranslates(box, box', d);
        }
        var rest, rest' := Row(m, c, i + 1, widths[1..], height, next), Row(m, c, i + 1, widths[1..], height, Lower(next, d, clip));
        AlignedYShifts(c.align, p.y, height, childHeight, d);
        ConsTranslates(box, box', rest, rest', d);
      } else {
        RowTranslates(m, c, i + 1, widths, height, p, d, clip);
      }
    }
  }

  /** What a scroll view shows is its content laid out directly at the new scroll
      position: laying out at the old one and moving makes no difference, not even
      for views nested inside. */
  lemma ScrollContentIsLaidOutInPlace(m: Renders, c: Component, p: Place, clip: Rect)
    requires c.Scroll?
    ensures var box := LayoutOf(m, c, p);
      var place := Place(p.x, p.y - box.view.value.top, ContentWidth(c, box.rect.width), None, clip);
      box.children == [Reclip(LayoutOf(m, c.child, place), box.clip)]
  {
    hide Intersect, ScrollState.UpdateLayout, ContentWidth, Reclip;
    var box := LayoutOf(m, c, p);
    var inner := Place(p.x, p.y - c.view.top, ContentWidth(c, box.rect.width), None, p.clip);
    var k := c.view.top - box.view.value.top;
    var content := LayoutOf(m, c.child, inner);
    LayoutTranslates(m, c.child, inner, k, clip);
    TranslateStrips(content, k);
    ReclipForgetsClips(Translate(content, k), LayoutOf(m, c.child, Lower(inner, k, clip)), box.clip);
  }

  // ---------------------------------------------------------------- where children go

  /** Where child k starts: behind the ones before it, a gap after each. */
  function Offset(sizes: seq<nat>, k: nat, gap: nat): nat
    requires k <= |sizes|
  {
    if k == 0 then 0 else Offset(sizes, k - 1, gap) + sizes[k - 1] + gap
  }

  lemma {:induction false} OffsetFromFront(sizes: seq<nat>, k: nat, gap: nat)
    requires 0 < k <= |sizes|
    ensures Offset(sizes, k, gap) == sizes[0] + gap + Offset(sizes[1..], k - 1, gap)
  {
    if k > 1 { OffsetFromFront(sizes, k - 1, gap); }
  }

  lemma {:induction false} OffsetTotal(sizes: seq<nat>, gap: nat)
    ensures Offset(sizes, |sizes|, gap) == Total(sizes) + |sizes| * gap
  {
    if sizes != [] {
      OffsetFromFront(sizes, |sizes|, gap);
      OffsetTotal(sizes[1..], gap);
    }
  }

  lemma RectOf(m: Renders, c: Component, p: Place)
    requires p.height.Some? && p.height.value >= 0
    ensures LayoutOf(m, c, p).rect == Rect(p.x, p.y, Max(1, p.width), p.height.value)
  {
    hide Column, Row, Settings, Measured, Tallest, Total, Reclip, Translate, Intersect, StackSizes.Allocate, ScrollState.UpdateLayout, ContentWidth;
  }

  /** The boxes of a column stand one below the other, each as high as its share,
      a gap apart. */
  lemma {:induction false} ColumnStacks(m: Renders, c: Component, i: nat, heights: seq<nat>, p: Place)
    requires c.Stack? && i <= |c.children| && |heights| == |Settings(c.children, i)|
    ensures var boxes := Column(m, c, i, heights, p);
      && |boxes| == |heights|
      && forall k :: 0 <= k < |boxes| ==>
           boxes[k].rect == Rect(p.x, p.y + Offset(heights, k, c.gap), Max(1, p.width), heights[k])
    decreases |c.children| - i
  {
    hide LayoutOf, Offset;
    if i < |c.children| && heights != [] {
      if c.children[i].visible {
        var rest := p.(y := p.y + heights[0] + c.gap);
        RectOf(m, c.children[i].component, p.(height := Some(heights[0])));
        ColumnStacks(m, c, i + 1, heights[1..], rest);
        var boxes := Column(m, c, i, heights, p);
        NoOffset(heights, c.gap);
        forall k | 0 <= k < |boxes|
          ensures boxes[k].rect == Rect(p.x, p.y + Offset(heights, k, c.gap), Max(1, p.width), heights[k])
        {
          if k > 0 { OffsetFromFront(heights, k, c.gap); }
        }
      } else {
        ColumnStacks(m, c, i + 1, heights, p);
      }
    }
  }

  lemma NoOffset(sizes: seq<nat>, gap: nat)
    ensures Offset(sizes, 0, gap) == 0
  {
  }

  /** Where an aligned child stands across a row. */
  ghost predicate Aligned(align: Align, top: int, height: int, rect: Rect) {
    var above, below := rect.y - top, top + height - (rect.y + rect.height);
    match align
    case Stretch => above == 0 && below == 0
    case Start => above == 0
    case Center => below - above == 0 || below - above == 1
    case End => below == 0
  }

  lemma AlignedYAligns(align: Align, x: int, y: int, width: int, height: int, childHeight: int)
    requires 0 <= childHeight <= height && (align == Stretch ==> childHeight == height)
    ensures Aligned(align, y, height, Rect(x, AlignedY(align, y, height, childHeight), width, childHeight))
  {
  }

  /** The boxes of a row stand side by side, each as wide as its share, a gap apart,
      and aligned inside the row's height. */
  lemma {:induction false} RowStacks(m: Renders, c: Component, i: nat, widths: seq<nat>, height: int, p: Place)
    requires c.Stack? && i <= |c.children| && |widths| == |Settings(c.children, i)| && height >= 0
    ensures var boxes := Row(m, c, i, widths, height, p);
      && |boxes| == |widths|
      && forall k :: 0 <= k < |boxes| ==>
           && boxes[k].rect.x == p.x + Offset(widths, k, c.gap) && boxes[k].rect.width == widths[k]
           && 0 <= boxes[k].rect.height <= height && Aligned(c.align, p.y, height, boxes[k].rect)
    decreases |c.children| - i
  {
    hide LayoutOf, Offset, AlignedY, Aligned;
    if i < |c.children| && widths != [] {
      if c.children[i].visible {
        RowChildAligned(m, c, i, widths, height, p);
        RowStacks(m, c, i + 1, widths[1..], height, p.(x := p.x + widths[0] + c.gap));
        NoOffset(widths, c.gap);
        forall k | 0 < k < |widths| ensures Offset(widths, k, c.gap) == widths[0] + c.gap + Offset(widths[1..], k - 1, c.gap) {
          OffsetFromFront(widths, k, c.gap);
        }
      } else {
        RowStacks(m, c, i + 1, widths, height, p);
      }
    }
  }

  lemma RowChildAligned(m: Renders, c: Component, i: nat, widths: seq<nat>, height: int, p: Place)
    requires c.Stack? && i < |c.children| && c.children[i].visible && widths != [] && height >= 0
    ensures var boxes := Row(m, c, i, widths, height, p);
      && |boxes| > 0 && boxes[1..] == Row(m, c, i + 1, widths[1..], height, p.(x := p.x + widths[0] + c.gap))
      && boxes[0].rect.x == p.x && boxes[0].rect.width == widths[0]
      && 0 <= boxes[0].rect.height <= height && Aligned(c.align, p.y, height, boxes[0].rect)
  {
    hide LayoutOf, AlignedY, Aligned;
    var child := c.children[i].component;
    var childHeight := if c.align == Stretch then height else Min(height, m.height(child.id, Max(1, widths[0])));
    var y := AlignedY(c.align, p.y, height, childHeight);
    AlignedYAligns(c.align, p.x, p.y, widths[0], height, childHeight);
    RectOf(m, child, Place(p.x, y, widths[0], Some(childHeight), p.clip));
  }

  /** In a vertical stack whose allocation is exact the children fill the height from
      the top edge to the bottom one. */
  lemma ExactColumnsFill(m: Renders, c: Component, sizes: seq<nat>, p: Place, height: nat)
    requires c.Stack? && |sizes| == |Settings(c.children, 0)| && sizes != []
    requires Total(sizes) + (|sizes| - 1) * c.gap == height
    ensures var boxes := Column(m, c, 0, sizes, p);
      && |boxes| == |sizes| && boxes[0].rect.y == p.y
      && boxes[|boxes| - 1].rect.y + boxes[|boxes| - 1].rect.height == p.y + height
  {
    hide Column, Settings, Total, Offset;
    ColumnStacks(m, c, 0, sizes, p);
    NoOffset(sizes, c.gap);
    LastOffset(sizes, c.gap);
  }

  lemma LastOffset(sizes: seq<nat>, gap: nat)
    requires sizes != []
    ensures var n := |sizes| - 1; Offset(sizes, n, gap) + sizes[n] == Total(sizes) + n * gap
  {
    hide Total;
    var n := |sizes| - 1;
    OffsetTotal(sizes, gap);
    OneMore(n, gap);
  }

  lemma OneMore(n: nat, gap: nat)
    ensures (n + 1) * gap == n * gap + gap
  {
  }
}
