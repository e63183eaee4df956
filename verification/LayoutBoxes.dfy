// Layout boxes as objects that are moved and clipped in place
// (internal/tui/layout.go). A box keeps the children it was built with.

module LayoutBoxes {
  import opened Options
  import opened ScrollViews
  import opened Layout
  import StackSizes

  class LayoutBox {
    const id: nat
    const children: seq<LayoutBox>
    const view: Option<ScrollState>
    ghost const repr: set<LayoutBox>
    var rect: Rect
    var clip: Rect
    // The box as a value, its subtree included.
    ghost var value: Box

    /** A tree: each child owns its own part of this box's boxes. */
    ghost predicate Tree()
      decreases repr
    {
      && this in repr
      && (forall i :: 0 <= i < |children| ==>
            children[i] in repr && children[i].repr < repr && this !in children[i].repr && children[i].Tree())
      && (forall i, j :: 0 <= i < j < |children| ==> children[i].repr !! children[j].repr)
    }

    constructor (id: nat, rect: Rect, clip: Rect, children: seq<LayoutBox>, ghost values: seq<Box>, view: Option<ScrollState>)
      requires Forest(children) && |values| == |children|
      requires forall i :: 0 <= i < |children| ==> children[i].Valid() && children[i].value == values[i]
      ensures Tree() && Valid() && value == Box(id, rect, clip, values, view)
      ensures this.children == children && repr == {this} + Boxes(children)
    {
      this.id, this.rect, this.clip, this.children, this.view := id, rect, clip, children, view;
      repr := {this} + Boxes(children);
      value := Box(id, rect, clip, values, view);
      new;
      ForestBelow(this, children);
    }

    ghost predicate Own()
      reads this
    {
      value == Box(id, rect, clip, value.children, view) && |value.children| == |children|
    }

    ghost predicate Valid()
      requires Tree()
      reads this, repr
      decreases repr
    {
      Own() && forall i :: 0 <= i < |children| ==> children[i].Valid() && children[i].value == value.children[i]
    }
  }

  // Separate trees.
  ghost predicate Forest(boxes: seq<LayoutBox>) {
    (forall i :: 0 <= i < |boxes| ==> boxes[i].Tree()) &&
    (forall i, j :: 0 <= i < j < |boxes| ==> boxes[i].repr !! boxes[j].repr)
  }

  ghost function Boxes(boxes: seq<LayoutBox>): set<LayoutBox> {
    set i, o | 0 <= i < |boxes| && o in boxes[i].repr :: o
  }

  lemma ForestBelow(box: LayoutBox, children: seq<LayoutBox>)
    requires Forest(children) && box.children == children && box.repr == {box} + Boxes(children) && box !in Boxes(children)
    ensures box.Tree()
  {
    forall i | 0 <= i < |children|
      ensures children[i] in box.repr && children[i].repr < box.repr && box !in children[i].repr && children[i].Tree()
    {
      assert children[i].Tree() && children[i].repr <= Boxes(children);
      OwnBox(children[i]);
      assert box !in children[i].repr && box in box.repr;
    }
  }

  lemma OwnBox(box: LayoutBox)
    requires box.Tree()
    ensures box in box.repr
  {
  }

  lemma ChildOf(box: LayoutBox, i: nat)
    requires box.Tree() && i < |box.children|
    ensures box.children[i].Tree() && box.children[i].repr < box.repr
    ensures box.children[i] in box.children[i].repr
    ensures box in box.repr && box !in box.children[i].repr
    ensures forall j :: 0 <= j < |box.children| && j != i ==> box.children[j].Tree() && box.children[j].repr !! box.children[i].repr
  {
  }

  lemma {:induction false} TranslateAllAt(boxes: seq<Box>, deltaY: int, i: nat)
    requires i < |boxes|
    ensures |TranslateAll(boxes, deltaY)| == |boxes| && TranslateAll(boxes, deltaY)[i] == Translate(boxes[i], deltaY)
  {
    if |boxes| > 1 { TranslateAllAt(boxes[1..], deltaY, if i == 0 then 0 else i - 1); }
  }

  lemma TranslateUnfolds(box: Box, deltaY: int)
    ensures var r := Translate(box, deltaY);
      && r == box.(rect := box.rect.(y := box.rect.y + deltaY), children := r.children)
      && |r.children| == |box.children|
  {
    if box.children != [] { TranslateAllAt(box.children, deltaY, 0); }
  }

  lemma TranslatedChild(box: Box, deltaY: int, i: nat)
    requires i < |box.children|
    ensures |Translate(box, deltaY).children| == |box.children|
    ensures Translate(box, deltaY).children[i] == Translate(box.children[i], deltaY)
  {
    TranslateAllAt(box.children, deltaY, i);
  }

  ghost predicate ChildHolds(box: LayoutBox, j: nat, value: Box)
    requires box.Tree() && j < |box.children|
    reads box.children[j], box.children[j].repr
  {
    box.children[j].Tree() && box.children[j].Valid() && box.children[j].value == value
  }

  lemma ValidChildren(box: LayoutBox)
    requires box.Tree() && box.Valid()
    ensures box.Own() && box in box.repr
    ensures forall j :: 0 <= j < |box.children| ==> ChildHolds(box, j, box.value.children[j])
  {
  }

  lemma NowValid(box: LayoutBox, values: seq<Box>)
    requires box.Tree() && box.Own() && box.value.children == values && |values| == |box.children|
    requires forall j :: 0 <= j < |values| ==> ChildHolds(box, j, values[j])
    ensures box.Valid()
  {
    forall j | 0 <= j < |box.children| ensures box.children[j].Valid() && box.children[j].value == box.value.children[j] {
      assert ChildHolds(box, j, values[j]);
    }
  }

  lemma Siblings(box: LayoutBox, i: nat, j: nat)
    requires box.Tree() && i < |box.children| && j < |box.children| && i != j
    ensures box.children[j] !in box.children[i].repr && box.children[j].repr !! box.children[i].repr
  {
    ChildOf(box, i);
    ChildOf(box, j);
  }

  lemma Held(box: LayoutBox, i: nat, value: Box)
    requires box.Tree() && i < |box.children|
    ensures ChildHolds(box, i, value) <==> box.children[i].Tree() && box.children[i].Valid() && box.children[i].value == value
  {
  }

  /** Moves a subtree down in place. */
  method TranslateLayoutBox(box: LayoutBox, deltaY: int)
    requires box.Tree() && box.Valid()
    modifies box.repr
    ensures box.Valid() && box.value == Translate(old(box.value), deltaY)
    decreases box.repr
  {
    hide Translate, TranslateAll, LayoutBox.Tree, LayoutBox.Valid, ChildHolds;
    ghost var before := box.value;
    ghost var after := Translate(before, deltaY);
    ghost var n := |box.children|;
    TranslateUnfolds(before, deltaY);
    ValidChildren(box);
    OutOfReach(box);
    box.rect := box.rect.(y := box.rect.y + deltaY);
    box.value := after;
    var i := 0;
    while i < |box.children|
      invariant 0 <= i <= n && box.Own() && box.value == after
      invariant forall j :: 0 <= j < i ==> ChildHolds(box, j, after.children[j])
      invariant forall j :: i <= j < n ==> ChildHolds(box, j, before.children[j])
    {
      ChildOf(box, i);
      Held(box, i, before.children[i]);
      TranslatedChild(before, deltaY, i);
      SiblingsOf(box, i);
      TranslateLayoutBox(box.children[i], deltaY);
      Held(box, i, after.children[i]);
      i := i + 1;
    }
    NowValid(box, after.children);
  }

  lemma OutOfReach(box: LayoutBox)
    requires box.Tree()
    ensures forall j :: 0 <= j < |box.children| ==> box !in box.children[j].repr && box.children[j] in box.children[j].repr
  {
    forall j: nat | j < |box.children| ensures box !in box.children[j].repr && box.children[j] in box.children[j].repr {
      ChildOf(box, j);
    }
  }

  lemma SiblingsOf(box: LayoutBox, i: nat)
    requires box.Tree() && i < |box.children|
    ensures forall j :: 0 <= j < |box.children| && j != i ==>
      box.children[j] !in box.children[i].repr && box.children[j].repr !! box.children[i].repr
  {
    forall j: nat | j < |box.children| && j != i
      ensures box.children[j] !in box.children[i].repr && box.children[j].repr !! box.children[i].repr
    {
      Siblings(box, i, j);
    }
  }

  lemma {:induction false} ReclipAllAt(boxes: seq<Box>, clip: Rect, i: nat)
    requires i < |boxes|
    ensures |ReclipAll(boxes, clip)| == |boxes| && ReclipAll(boxes, clip)[i] == Reclip(boxes[i], clip)
  {
    if |boxes| > 1 { ReclipAllAt(boxes[1..], clip, if i == 0 then 0 else i - 1); }
  }

  lemma ReclipUnfolds(box: Box, parentClip: Rect)
    ensures var r := Reclip(box, parentClip);
      && r == box.(clip := Intersect(parentClip, box.rect), children := r.children)
      && |r.children| == |box.children|
  {
    if box.children != [] { ReclipAllAt(box.children, Intersect(parentClip, box.rect), 0); }
  }

  lemma ReclippedChild(box: Box, parentClip: Rect, i: nat)
    requires i < |box.children|
    ensures |Reclip(box, parentClip).children| == |box.children|
    ensures Reclip(box, parentClip).children[i] == Reclip(box.children[i], Intersect(parentClip, box.rect))
  {
    ReclipAllAt(box.children, Intersect(parentClip, box.rect), i);
  }

  /** Recomputes the clips of a subtree in place. */
  method UpdateLayoutClips(box: LayoutBox, parentClip: Rect)
    requires box.Tree() && box.Valid()
    modifies box.repr
    ensures box.Valid() && box.value == Reclip(old(box.value), parentClip)
    decreases box.repr
  {
    hide Reclip, ReclipAll, Intersect, LayoutBox.Tree, LayoutBox.Valid, ChildHolds;
    ghost var before := box.value;
    ghost var after := Reclip(before, parentClip);
    ghost var n := |box.children|;
    ReclipUnfolds(before, parentClip);
    ValidChildren(box);
    OutOfReach(box);
    box.clip := Intersect(parentClip, box.rect);
    box.value := after;
    var i := 0;
    while i < |box.children|
      invariant 0 <= i <= n && box.Own() && box.value == after
      invariant forall j :: 0 <= j < i ==> ChildHolds(box, j, after.children[j])
      invariant forall j :: i <= j < n ==> ChildHolds(box, j, before.children[j])
    {
      ChildOf(box, i);
      Held(box, i, before.children[i]);
      ReclippedChild(before, parentClip, i);
      SiblingsOf(box, i);
      UpdateLayoutClips(box.children[i], box.clip);
      Held(box, i, after.children[i]);
      i := i + 1;
    }
    NowValid(box, after.children);
  }

  // ---------------------------------------------------------------- hit testing

  datatype Found = Found(box: LayoutBox, depth: nat)

  // Boxes found and the values they stand for.
  ghost predicate Match(found: seq<Found>, hits: seq<Hit>)
    reads set i | 0 <= i < |found| :: found[i].box
  {
    |found| == |hits| && forall i :: 0 <= i < |found| ==> found[i].box.value == hits[i].box && found[i].depth == hits[i].depth
  }

  lemma VisitAllFrom(boxes: seq<Box>, i: nat, depth: nat, x: int, y: int)
    requires i < |boxes|
    ensures VisitAll(boxes[i..], depth, x, y) == Layout.Visit(boxes[i], depth, x, y) + VisitAll(boxes[i + 1..], depth, x, y)
  {
    assert boxes[i..][0] == boxes[i] && boxes[i..][1..] == boxes[i + 1..];
  }

  /** The recursive walk over the boxes, skipping a subtree whose clip misses the
      point; hits are appended in tree order. */
  method Visit(box: LayoutBox, depth: nat, x: int, y: int) returns (found: seq<Found>)
    requires box.Tree() && box.Valid()
    ensures Match(found, Layout.Visit(box.value, depth, x, y))
    decreases box.repr
  {
    hide VisitAll, LayoutBox.Tree, LayoutBox.Valid, ChildHolds, Contains;
    ValidChildren(box);
    if !Contains(box.clip, x, y) { return []; }
    found := [Found(box, depth)];
    ghost var hits := [Hit(box.value, depth)];
    ghost var values := box.value.children;
    assert values[0..] == values;
    for i := 0 to |box.children|
      invariant Match(found, hits)
      invariant hits + VisitAll(values[i..], depth + 1, x, y) == Layout.Visit(box.value, depth, x, y)
    {
      ChildOf(box, i);
      Held(box, i, values[i]);
      VisitAllFrom(values, i, depth + 1, x, y);
      var below := Visit(box.children[i], depth + 1, x, y);
      found := found + below;
      hits := hits + Layout.Visit(values[i], depth + 1, x, y);
    }
    assert values[|box.children|..] == [];
    VisitNone(depth + 1, x, y);
    assert hits + [] == hits;
  }

  lemma VisitNone(depth: nat, x: int, y: int)
    ensures VisitAll([], depth, x, y) == []
  {
  }

  // ---------------------------------------------------------------- laying out

  /** Lays a component out as a fresh tree of boxes; a scroll view lays its content
      out at the old position, moves it and clips it again in place. */
  method LayoutComponent(m: Renders, c: Component, p: Place) returns (box: LayoutBox)
    ensures box.Tree() && fresh(box.repr) && box.Valid() && box.value == LayoutOf(m, c, p)
    decreases c, 1, 0
  {
    hide Intersect, Translate, Reclip, Column, Row, Settings, Measured, Tallest, Total, Contains,
      StackSizes.Allocate, ScrollState.UpdateLayout, ContentWidth, LayoutBox.Tree, LayoutBox.Valid;
    var width := Max(1, p.width);
    match c
    case Leaf(id) =>
      var height := if p.height.Some? then Max(0, p.height.value) else m.height(id, width);
      var rect := Rect(p.x, p.y, width, height);
      box := new LayoutBox(id, rect, Intersect(p.clip, rect), [], [], None);
    case Scroll(id, child, view, _) =>
      var content := LayoutComponent(m, child, Place(p.x, p.y - view.top, ContentWidth(c, width), None, p.clip));
      ValidChildren(content);
      ghost var laid := content.value;
      var contentHeight := content.rect.height;
      var height := if p.height.Some? then Max(0, p.height.value) else contentHeight;
      var next := view.UpdateLayout(contentHeight, height);
      TranslateLayoutBox(content, view.top - next.top);
      var rect := Rect(p.x, p.y, width, height);
      var clip := Intersect(p.clip, rect);
      UpdateLayoutClips(content, clip);
      ghost var shown := content.value;
      assert shown == Reclip(Translate(laid, view.top - next.top), clip);
      OneTree(content);
      box := new LayoutBox(id, rect, clip, [content], [shown], Some(next));
    case Stack(id, vertical, children, gap, _) =>
      var settings := Settings(children, 0);
      var sizes := StackSizes.Allocate(settings, Measured(m, children, 0, vertical, width),
                                       if vertical then p.height else Some(width), gap);
      var natural := if vertical then Max(0, |settings| - 1) * gap + Total(sizes) else Tallest(m, children, 0, sizes);
      var height := if p.height.Some? then Max(0, p.height.value) else natural;
      var rect := Rect(p.x, p.y, width, height);
      var clip := Intersect(p.clip, rect);
      if vertical {
        var boxes := LayoutColumn(m, c, sizes, Place(p.x, p.y, width, None, clip));
        box := new LayoutBox(id, rect, clip, boxes, Column(m, c, 0, sizes, Place(p.x, p.y, width, None, clip)), None);
      } else {
        var boxes := LayoutRow(m, c, sizes, height, Place(p.x, p.y, 0, None, clip));
        box := new LayoutBox(id, rect, clip, boxes, Row(m, c, 0, sizes, height, Place(p.x, p.y, 0, None, clip)), None);
      }
  }

  lemma OneTree(box: LayoutBox)
    requires box.Tree()
    ensures Forest([box]) && Boxes([box]) == box.repr
  {
    forall o ensures o in Boxes([box]) <==> o in box.repr {
      assert [box][0] == box;
    }
  }

  ghost predicate AllHold(boxes: seq<LayoutBox>, values: seq<Box>)
    requires Forest(boxes)
    reads Boxes(boxes)
  {
    |values| == |boxes| && forall i :: 0 <= i < |boxes| ==> boxes[i].Valid() && boxes[i].value == values[i]
  }

  lemma NoTrees()
    ensures Forest([]) && AllHold([], []) && Boxes([]) == {}
  {
  }

  lemma OneMoreTree(boxes: seq<LayoutBox>, values: seq<Box>, box: LayoutBox, value: Box)
    requires Forest(boxes) && AllHold(boxes, values) && box.Tree() && box.repr !! Boxes(boxes)
    requires box.Valid() && box.value == value
    ensures Forest(boxes + [box]) && AllHold(boxes + [box], values + [value])
    ensures Boxes(boxes + [box]) == Boxes(boxes) + box.repr
  {
    var more := boxes + [box];
    forall i, j | 0 <= i < j < |more| ensures more[i].repr !! more[j].repr {
      if j == |boxes| { assert boxes[i].repr <= Boxes(boxes); }
    }
    forall o ensures o in Boxes(more) <==> o in Boxes(boxes) + box.repr {
      if o in Boxes(boxes) {
        var i :| 0 <= i < |boxes| && o in boxes[i].repr;
        assert more[i] == boxes[i];
      }
      assert more[|boxes|] == box;
    }
  }

  method LayoutColumn(m: Renders, c: Component, sizes: seq<nat>, p: Place) returns (boxes: seq<LayoutBox>)
    requires c.Stack?
    ensures Forest(boxes) && fresh(Boxes(boxes))
    ensures |boxes| == |Column(m, c, 0, sizes, p)|
    ensures forall i :: 0 <= i < |boxes| ==> boxes[i].Valid() && boxes[i].value == Column(m, c, 0, sizes, p)[i]
    decreases c, 0, 0
  {
    hide LayoutOf, LayoutBox.Tree, LayoutBox.Valid, Forest, AllHold, Boxes, Column;
    boxes := [];
    ghost var values: seq<Box> := [];
    ghost var owned: set<LayoutBox> := {};
    NoTrees();
    var i, n, y := 0, 0, p.y;
    assert sizes[0..] == sizes;
    while i < |c.children|
      invariant 0 <= i <= |c.children| && 0 <= n <= |sizes|
      invariant Forest(boxes) && fresh(owned) && owned == Boxes(boxes) && AllHold(boxes, values)
      invariant values + Column(m, c, i, sizes[n..], p.(y := y)) == Column(m, c, 0, sizes, p)
    {
      ColumnUnfolds(m, c, i, sizes[n..], p.(y := y));
      if n < |sizes| && c.children[i].visible {
        var size := sizes[n];
        assert sizes[n..][0] == size && sizes[n..][1..] == sizes[n + 1..];
        var box := LayoutComponent(m, c.children[i].component, p.(y := y, height := Some(size)));
        OneMoreTree(boxes, values, box, box.value);
        boxes, values, owned := boxes + [box], values + [box.value], owned + box.repr;
        n, y := n + 1, y + size + c.gap;
      }
      i := i + 1;
    }
    ColumnEnds(m, c, sizes[n..], p.(y := y));
    assert values + [] == values;
    AllHoldMeans(boxes, values);
  }

  lemma AllHoldMeans(boxes: seq<LayoutBox>, values: seq<Box>)
    requires Forest(boxes) && AllHold(boxes, values)
    ensures |boxes| == |values| && forall i :: 0 <= i < |boxes| ==> boxes[i].Tree() && boxes[i].Valid() && boxes[i].value == values[i]
  {
  }

  lemma ColumnUnfolds(m: Renders, c: Component, i: nat, heights: seq<nat>, p: Place)
    requires c.Stack? && i < |c.children|
    ensures Column(m, c, i, heights, p) ==
      if heights == [] then []
      else if !c.children[i].visible then Column(m, c, i + 1, heights, p)
      else
        [LayoutOf(m, c.children[i].component, p.(height := Some(heights[0])))]
          + Column(m, c, i + 1, heights[1..], p.(y := p.y + heights[0] + c.gap))
    ensures heights == [] ==> Column(m, c, i + 1, heights, p) == []
  {
    hide LayoutOf;
  }

  lemma ColumnEnds(m: Renders, c: Component, heights: seq<nat>, p: Place)
    requires c.Stack?
    ensures Column(m, c, |c.children|, heights, p) == []
  {
  }

  // The child at index i of a row: its place, or an empty box when it has no width.
  function RowBox(m: Renders, c: Component, i: nat, width: nat, height: int, p: Place): Box
    requires c.Stack? && i < |c.children|
  {
    var child := c.children[i].component;
    var childHeight := if c.align == Stretch then height else Min(height, m.height(child.id, Max(1, width)));
    var y := AlignedY(c.align, p.y, height, childHeight);
    if width == 0 then Box(child.id, Rect(p.x, y, 0, childHeight), Rect(p.x, y, 0, 0), [], None)
    else LayoutOf(m, child, Place(p.x, y, width, Some(childHeight), p.clip))
  }

  lemma RowUnfolds(m: Renders, c: Component, i: nat, widths: seq<nat>, height: int, p: Place)
    requires c.Stack? && i < |c.children|
    ensures Row(m, c, i, widths, height, p) ==
      if widths == [] then []
      else if !c.children[i].visible then Row(m, c, i + 1, widths, height, p)
      else [RowBox(m, c, i, widths[0], height, p)] + Row(m, c, i + 1, widths[1..], height, p.(x := p.x + widths[0] + c.gap))
    ensures widths == [] ==> Row(m, c, i + 1, widths, height, p) == []
  {
    hide LayoutOf, AlignedY;
  }

  lemma RowEnds(m: Renders, c: Component, widths: seq<nat>, height: int, p: Place)
    requires c.Stack?
    ensures Row(m, c, |c.children|, widths, height, p) == []
  {
  }

  method LayoutRowChild(m: Renders, c: Component, i: nat, width: nat, height: int, p: Place) returns (box: LayoutBox)
    requires c.Stack? && i < |c.children|
    ensures box.Tree() && fresh(box.repr) && box.Valid() && box.value == RowBox(m, c, i, width, height, p)
    decreases c, 0, 0
  {
    hide LayoutOf, AlignedY;
    var child := c.children[i].component;
    var childHeight := if c.align == Stretch then height else Min(height, m.height(child.id, Max(1, width)));
    var y := AlignedY(c.align, p.y, height, childHeight);
    if width == 0 {
      box := new LayoutBox(child.id, Rect(p.x, y, 0, childHeight), Rect(p.x, y, 0, 0), [], [], None);
    } else {
      box := LayoutComponent(m, child, Place(p.x, y, width, Some(childHeight), p.clip));
    }
  }

  method LayoutRow(m: Renders, c: Component, sizes: seq<nat>, height: int, p: Place) returns (boxes: seq<LayoutBox>)
    requires c.Stack?
    ensures Forest(boxes) && fresh(Boxes(boxes))
    ensures |boxes| == |Row(m, c, 0, sizes, height, p)|
    ensures forall i :: 0 <= i < |boxes| ==> boxes[i].Valid() && boxes[i].value == Row(m, c, 0, sizes, height, p)[i]
    decreases c, 0, 1
  {
    hide LayoutOf, RowBox, LayoutBox.Tree, LayoutBox.Valid, Forest, AllHold, Boxes, Row;
    boxes := [];
    ghost var values: seq<Box> := [];
    ghost var owned: set<LayoutBox> := {};
    NoTrees();
    var i, n, x := 0, 0, p.x;
    assert sizes[0..] == sizes;
    while i < |c.children|
      invariant 0 <= i <= |c.children| && 0 <= n <= |sizes|
      invariant Forest(boxes) && fresh(owned) && owned == Boxes(boxes) && AllHold(boxes, values)
      invariant values + Row(m, c, i, sizes[n..], height, p.(x := x)) == Row(m, c, 0, sizes, height, p)
    {
      RowUnfolds(m, c, i, sizes[n..], height, p.(x := x));
      if n < |sizes| && c.children[i].visible {
        var size := sizes[n];
        assert sizes[n..][0] == size && sizes[n..][1..] == sizes[n + 1..];
        var box := LayoutRowChild(m, c, i, size, height, p.(x := x));
        OneMoreTree(boxes, values, box, box.value);
        boxes, values, owned := boxes + [box], values + [box.value], owned + box.repr;
        n, x := n + 1, x + size + c.gap;
      }
      i := i + 1;
    }
    RowEnds(m, c, sizes[n..], height, p.(x := x));
    assert values + [] == values;
    AllHoldMeans(boxes, values);
  }
}
