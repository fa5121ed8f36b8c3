/** The geometry shared by the keepout tools: axis-aligned rectangles, their overlap and
    containment tests, and the board outline as the extent of the Edge.Cuts drawings.
    Coordinates are integers in board units; the source's rounding to 3 or 2 decimal
    places is not modelled. */
module KeepoutHelpers {
  import opened Wrappers

  /** A bounding box: `x_min_mm`, `y_min_mm`, `x_max_mm`, `y_max_mm`. */
  datatype Rect = Rect(xMin: int, yMin: int, xMax: int, yMax: int)

  /** A box with positive width and height, as pcbnew reports for a real footprint. */
  predicate Proper(r: Rect) {
    r.xMin < r.xMax && r.yMin < r.yMax
  }

  /** `rects_overlap`: strict on both axes, so boxes that share only an edge do not overlap. */
  predicate RectsOverlap(a: Rect, b: Rect) {
    a.xMin < b.xMax && a.xMax > b.xMin && a.yMin < b.yMax && a.yMax > b.yMin
  }

  /** `rect_inside`: non-strict on every side. */
  predicate RectInside(inner: Rect, outer: Rect) {
    inner.xMin >= outer.xMin && inner.xMax <= outer.xMax
    && inner.yMin >= outer.yMin && inner.yMax <= outer.yMax
  }

  function Max(a: int, b: int): int { if a >= b then a else b }
  function Min(a: int, b: int): int { if a <= b then a else b }

  /** `overlap_area` before rounding: the intersection's width times its height, each
      clamped at 0. It is positive exactly when the boxes overlap, and it never exceeds
      either box's own area. */
  function OverlapArea(a: Rect, b: Rect): (area: int)
    ensures area >= 0
    ensures area > 0 ==> RectsOverlap(a, b)
    ensures Proper(a) && Proper(b) ==> (area > 0 <==> RectsOverlap(a, b))
    ensures Proper(a) ==> area <= (a.xMax - a.xMin) * (a.yMax - a.yMin)
  {
    var dx := Max(0, Min(a.xMax, b.xMax) - Max(a.xMin, b.xMin));
    var dy := Max(0, Min(a.yMax, b.yMax) - Max(a.yMin, b.yMin));
    PositiveProduct(dx, dy);
    assert Proper(a) ==> dx * dy <= (a.xMax - a.xMin) * (a.yMax - a.yMin) by {
      if Proper(a) {
        BoundedProduct(dx, dy, a.xMax - a.xMin, a.yMax - a.yMin);
      }
    }
    dx * dy
  }

  lemma PositiveProduct(x: int, y: int)
    requires x >= 0 && y >= 0
    ensures x * y >= 0
    ensures x * y > 0 <==> x > 0 && y > 0
  {
    if x > 0 && y > 0 {
      assert x * y >= 1 * y;
    }
  }

  lemma BoundedProduct(x: int, y: int, w: int, h: int)
    requires 0 <= x <= w && 0 <= y <= h
    ensures x * y <= w * h
  {
    assert x * y <= w * y;
    assert w * y <= w * h;
  }

  /** Overlap does not depend on the order of the two boxes. */
  lemma OverlapSymmetric(a: Rect, b: Rect)
    ensures RectsOverlap(a, b) == RectsOverlap(b, a)
    ensures OverlapArea(a, b) == OverlapArea(b, a)
  {
  }

  /** A proper box inside another overlaps it, and the overlap area is its own area. */
  lemma ContainedOverlaps(inner: Rect, outer: Rect)
    requires Proper(inner) && RectInside(inner, outer)
    ensures RectsOverlap(inner, outer) && RectsOverlap(outer, inner)
    ensures OverlapArea(inner, outer) == (inner.xMax - inner.xMin) * (inner.yMax - inner.yMin)
  {
  }

  /** Boxes that only touch along a vertical edge do not overlap. */
  lemma SharedEdgeIsNoOverlap(a: Rect, b: Rect)
    requires a.xMax == b.xMin
    ensures !RectsOverlap(a, b) && OverlapArea(a, b) == 0
  {
  }

  /** Containment is reflexive and transitive. */
  lemma InsideOrder(a: Rect, b: Rect, c: Rect)
    ensures RectInside(a, a)
    ensures RectInside(a, b) && RectInside(b, c) ==> RectInside(a, c)
  {
  }

  // ---------------------------------------------------------------------
  // get_board_outline
  // ---------------------------------------------------------------------

  /** A board drawing: whether it lies on Edge.Cuts, and its start and end points. */
  datatype Drawing = Drawing(onEdgeCuts: bool, startX: int, startY: int, endX: int, endY: int)

  /** The outline dictionary: the extent of the Edge.Cuts points and its size. */
  datatype Outline = Outline(box: Rect, width: int, height: int)

  /** The x (or y) coordinates the source collects: start then end of each Edge.Cuts drawing. */
  function EdgeXs(ds: seq<Drawing>): (xs: seq<int>)
    ensures |xs| % 2 == 0
    decreases |ds|
  {
    if ds == [] then []
    else
      var d := ds[|ds| - 1];
      EdgeXs(ds[..|ds| - 1]) + (if d.onEdgeCuts then [d.startX, d.endX] else [])
  }

  function EdgeYs(ds: seq<Drawing>): (ys: seq<int>)
    ensures |ys| == |EdgeXs(ds)|
    decreases |ds|
  {
    if ds == [] then []
    else
      var d := ds[|ds| - 1];
      EdgeYs(ds[..|ds| - 1]) + (if d.onEdgeCuts then [d.startY, d.endY] else [])
  }

  /** Python's `min` over a non-empty list. */
  function SeqMin(xs: seq<int>): (m: int)
    requires xs != []
    ensures m in xs && forall x :: x in xs ==> m <= x
    decreases |xs|
  {
    if |xs| == 1 then xs[0]
    else
      var rest := SeqMin(xs[1..]);
      assert forall x :: x in xs ==> x == xs[0] || x in xs[1..];
      if xs[0] <= rest then xs[0] else rest
  }

  /** Python's `max` over a non-empty list. */
  function SeqMax(xs: seq<int>): (m: int)
    requires xs != []
    ensures m in xs && forall x :: x in xs ==> x <= m
    decreases |xs|
  {
    if |xs| == 1 then xs[0]
    else
      var rest := SeqMax(xs[1..]);
      assert forall x :: x in xs ==> x == xs[0] || x in xs[1..];
      if xs[0] >= rest then xs[0] else rest
  }

  /** The points of the Edge.Cuts drawings are exactly the coordinates collected. */
  lemma {:induction false} EdgePoints(ds: seq<Drawing>)
    ensures EdgeXs(ds) == [] <==> forall d :: d in ds ==> !d.onEdgeCuts
    ensures forall d :: d in ds && d.onEdgeCuts ==>
      d.startX in EdgeXs(ds) && d.endX in EdgeXs(ds) && d.startY in EdgeYs(ds) && d.endY in EdgeYs(ds)
    decreases |ds|
  {
    if ds != [] {
      var init := ds[..|ds| - 1];
      EdgePoints(init);
      assert forall d :: d in ds ==> d in init || d == ds[|ds| - 1] by {
        assert ds == init + [ds[|ds| - 1]];
      }
    }
  }

  /** `get_board_outline`: `None` when no drawing lies on Edge.Cuts, otherwise the smallest
      box holding every Edge.Cuts start and end point, with its width and height. */
  function OutlineOf(drawings: seq<Drawing>): (r: Option<Outline>)
    ensures r.None? <==> forall d :: d in drawings ==> !d.onEdgeCuts
    ensures r.Some? ==> (r.value.width == r.value.box.xMax - r.value.box.xMin >= 0
      && r.value.height == r.value.box.yMax - r.value.box.yMin >= 0)
    ensures r.Some? ==> forall d :: d in drawings && d.onEdgeCuts ==>
      (r.value.box.xMin <= d.startX <= r.value.box.xMax && r.value.box.xMin <= d.endX <= r.value.box.xMax
      && r.value.box.yMin <= d.startY <= r.value.box.yMax && r.value.box.yMin <= d.endY <= r.value.box.yMax)
    ensures r.Some? ==> (r.value.box.xMin in EdgeXs(drawings) && r.value.box.xMax in EdgeXs(drawings)
      && r.value.box.yMin in EdgeYs(drawings) && r.value.box.yMax in EdgeYs(drawings))
  {
    EdgePoints(drawings);
    var xs := EdgeXs(drawings);
    var ys := EdgeYs(drawings);
    if xs == [] then None
    else Some(Outline(Rect(SeqMin(xs), SeqMin(ys), SeqMax(xs), SeqMax(ys)), SeqMax(xs) - SeqMin(xs), SeqMax(ys) - SeqMin(ys)))
  }

  /** The loop of `get_board_outline`. */
  method BoardOutline(drawings: seq<Drawing>) returns (r: Option<Outline>)
    ensures r == OutlineOf(drawings)
  {
    var xs: seq<int> := [];
    var ys: seq<int> := [];
    var i := 0;
    while i < |drawings|
      invariant 0 <= i <= |drawings|
      invariant xs == EdgeXs(drawings[..i]) && ys == EdgeYs(drawings[..i])
    {
      assert drawings[..i + 1][..i] == drawings[..i];
      var d := drawings[i];
      if d.onEdgeCuts {
        xs := xs + [d.startX, d.endX];
        ys := ys + [d.startY, d.endY];
      }
      i := i + 1;
    }
    assert drawings[..|drawings|] == drawings;
    if xs == [] {
      r := None;
    } else {
      var box := Rect(SeqMin(xs), SeqMin(ys), SeqMax(xs), SeqMax(ys));
      r := Some(Outline(box, SeqMax(xs) - SeqMin(xs), SeqMax(ys) - SeqMin(ys)));
    }
  }
}
