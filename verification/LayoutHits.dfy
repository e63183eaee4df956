// What a point hits (internal/tui/layout.go), by the rectangles on the way down to a
// box instead of the clips stored in the tree.

module LayoutHits {
  import opened Options
  import opened Layout

  /** The cell is one of the rectangle's columns and one of its rows. */
  predicate CellOf(r: Rect, x: int, y: int) {
    var column, row := x - r.x, y - r.y;
    0 <= column <= r.width - 1 && 0 <= row <= r.height - 1
  }

  /** Child numbers from the root down to a box. */
  predicate IsPath(box: Box, path: seq<nat>)
    decreases |path|
  {
    path == [] || (path[0] < |box.children| && IsPath(box.children[path[0]], path[1..]))
  }

  function BoxAt(box: Box, path: seq<nat>): Box
    requires IsPath(box, path)
    decreases |path|
  {
    if path == [] then box else BoxAt(box.children[path[0]], path[1..])
  }

  /** The point lies in the box and in every box around it. */
  predicate Under(box: Box, path: seq<nat>, x: int, y: int)
    requires IsPath(box, path)
    decreases |path|
  {
    CellOf(box.rect, x, y) && (path != [] ==> Under(box.children[path[0]], path[1..], x, y))
  }

  lemma CellsAreContained(r: Rect, x: int, y: int)
    ensures Contains(r, x, y) <==> CellOf(r, x, y)
  {
  }

  lemma {:induction false} ClipMeans(box: Box, outer: Rect, path: seq<nat>, x: int, y: int)
    requires ClipsExactly(box, outer) && IsPath(box, path)
    ensures CellOf(BoxAt(box, path).clip, x, y) <==> CellOf(outer, x, y) && Under(box, path, x, y)
    decreases |path|
  {
    hide Contains, CellOf;
    CellsAreContained(box.clip, x, y);
    CellsAreContained(outer, x, y);
    CellsAreContained(box.rect, x, y);
    if path != [] {
      ClipMeans(box.children[path[0]], box.clip, path[1..], x, y);
    }
  }

  ghost predicate IsAt(box: Box, depth: nat, path: seq<nat>, hit: Hit) {
    IsPath(box, path) && hit == Hit(BoxAt(box, path), depth + |path|)
  }

  // Every place in the tree is listed.
  lemma {:induction false} PlacesAreListed(box: Box, depth: nat, path: seq<nat>)
    requires IsPath(box, path)
    ensures Hit(BoxAt(box, path), depth + |path|) in AllBoxes(box, depth)
    decreases |path|
  {
    if path != [] {
      PlacesAreListed(box.children[path[0]], depth + 1, path[1..]);
      ChildIsListed(box.children, depth + 1, path[0]);
    }
  }

  lemma {:induction false} ChildIsListed(boxes: seq<Box>, depth: nat, i: nat)
    requires i < |boxes|
    ensures forall h :: h in AllBoxes(boxes[i], depth) ==> h in AllBoxesIn(boxes, depth)
  {
    hide AllBoxes;
    if i > 0 { ChildIsListed(boxes[1..], depth, i - 1); }
  }

  // Every box listed has a place in the tree.
  lemma {:induction false} ListedHavePlaces(box: Box, depth: nat, hit: Hit) returns (path: seq<nat>)
    requires hit in AllBoxes(box, depth)
    ensures IsAt(box, depth, path, hit)
    decreases box, 1
  {
    if hit == Hit(box, depth) {
      path := [];
    } else {
      var i, rest := ListedInChild(box.children, depth + 1, hit);
      path := [i] + rest;
    }
  }

  lemma {:induction false} ListedInChild(boxes: seq<Box>, depth: nat, hit: Hit) returns (i: nat, path: seq<nat>)
    requires hit in AllBoxesIn(boxes, depth)
    ensures i < |boxes| && IsAt(boxes[i], depth, path, hit)
    decreases boxes
  {
    hide IsAt;
    if hit in AllBoxes(boxes[0], depth) {
      i := 0;
      path := ListedHavePlaces(boxes[0], depth, hit);
    } else {
      i, path := ListedInChild(boxes[1..], depth, hit);
      i := i + 1;
    }
  }

  lemma {:induction false} FilteredHits(hits: seq<Hit>, x: int, y: int)
    ensures forall h :: h in AtPoint(hits, x, y) <==> h in hits && CellOf(h.box.clip, x, y)
  {
    if hits != [] { FilteredHits(hits[1..], x, y); }
  }

  lemma {:induction false} DepthHolds(hits: seq<Hit>, d: nat)
    ensures forall h :: h in AtDepth(hits, d) <==> h in hits && h.depth == d
  {
    if hits != [] { DepthHolds(hits[..|hits| - 1], d); }
  }

  /** A point hits exactly the boxes it lies in together with every box around them,
      through scrolled and clipped content, each at its depth. */
  lemma HitsLieUnderThePoint(m: Renders, c: Component, p: Place, x: int, y: int, hit: Hit)
    ensures var root := LayoutOf(m, c, p);
      hit in BoxesAt(root, x, y) <==>
        CellOf(p.clip, x, y) && exists path :: IsAt(root, 0, path, hit) && Under(root, path, x, y)
  {
    hide LayoutOf, AtDepth, CellOf, BoxesAt, AllBoxes, AtPoint, Under, ClipsExactly;
    var root := LayoutOf(m, c, p);
    LayoutClips(m, c, p);
    PrunedHitTestIsExhaustive(m, c, p, x, y);
    var found := AtPoint(AllBoxes(root, 0), x, y);
    DepthHolds(BoxesAt(root, x, y), hit.depth);
    DepthHolds(found, hit.depth);
    assert AtDepth(BoxesAt(root, x, y), hit.depth) == AtDepth(found, hit.depth);
    FilteredHits(AllBoxes(root, 0), x, y);
    if hit in found {
      var path := ListedHavePlaces(root, 0, hit);
      ClipMeans(root, p.clip, path, x, y);
    }
    if CellOf(p.clip, x, y) && exists path :: IsAt(root, 0, path, hit) && Under(root, path, x, y) {
      var path :| IsAt(root, 0, path, hit) && Under(root, path, x, y);
      PlacesAreListed(root, 0, path);
      ClipMeans(root, p.clip, path, x, y);
    }
  }
}
