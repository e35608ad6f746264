/** Point rows and axis-aligned bounding boxes.
    Coordinates are reals: the box engine only compares them and takes
    minima and maxima. A box is either empty (Eigen's default-constructed
    `AlignedBox3d`, whose minimum lies above its maximum) or spans two
    corners. */
module Geometry {

  /** A row of the point array: three coordinates. */
  datatype Point = Point(x: real, y: real, z: real)

  /** A row of the triangle array: three indices into the point array. */
  datatype Triangle = Triangle(i: int, j: int, k: int)

  /** A row of the face-parameter array. */
  datatype SurfaceParam = SurfaceParam(u: real, v: real)

  datatype Box = Empty | Box(lo: Point, hi: Point)

  function Min(a: real, b: real): real { if a <= b then a else b }
  function Max(a: real, b: real): real { if a <= b then b else a }

  /** Component-wise minimum (Eigen's `cwiseMin`). */
  function PointMin(p: Point, q: Point): Point {
    Point(Min(p.x, q.x), Min(p.y, q.y), Min(p.z, q.z))
  }

  /** Component-wise maximum (Eigen's `cwiseMax`). */
  function PointMax(p: Point, q: Point): Point {
    Point(Max(p.x, q.x), Max(p.y, q.y), Max(p.z, q.z))
  }

  /** Component-wise `p <= q`. */
  predicate Below(p: Point, q: Point) {
    p.x <= q.x && p.y <= q.y && p.z <= q.z
  }

  predicate ContainsPoint(b: Box, p: Point) {
    b.Box? && Below(b.lo, p) && Below(p, b.hi)
  }

  /** Every point of `inner` lies in `outer`. */
  predicate Contains(outer: Box, inner: Box) {
    inner.Empty? || (outer.Box? && Below(outer.lo, inner.lo) && Below(inner.hi, outer.hi))
  }

  /** `AlignedBox3d::extend(other)`: the smallest box holding both. Extending by
      the empty box, or extending the empty box, gives the other operand. */
  function Extend(a: Box, b: Box): (r: Box)
    ensures Contains(r, a) && Contains(r, b)
    ensures r.Empty? <==> a.Empty? && b.Empty?
  {
    match (a, b)
    case (Empty, _) => b
    case (_, Empty) => a
    case (Box(alo, ahi), Box(blo, bhi)) => Box(PointMin(alo, blo), PointMax(ahi, bhi))
  }

  /** `std::accumulate` of `extend` over a sequence of boxes, from `acc`. */
  function ExtendAll(acc: Box, bs: seq<Box>): Box
    decreases |bs|
  {
    if bs == [] then acc else ExtendAll(Extend(acc, bs[0]), bs[1..])
  }

  /** The corner of component-wise minima of a non-empty point slice
      (Eigen's `colwise().minCoeff()`). */
  function MinCorner(pts: seq<Point>): Point
    requires |pts| > 0
    decreases |pts|
  {
    if |pts| == 1 then pts[0] else PointMin(MinCorner(pts[..|pts| - 1]), pts[|pts| - 1])
  }

  /** The corner of component-wise maxima (Eigen's `colwise().maxCoeff()`). */
  function MaxCorner(pts: seq<Point>): Point
    requires |pts| > 0
    decreases |pts|
  {
    if |pts| == 1 then pts[0] else PointMax(MaxCorner(pts[..|pts| - 1]), pts[|pts| - 1])
  }

  /** `AlignedBox3d(min, max)` of a non-empty slice of point rows. */
  function BoxOfPoints(pts: seq<Point>): Box
    requires |pts| > 0
  {
    Box(MinCorner(pts), MaxCorner(pts))
  }

  /** The corners of a non-empty point slice bound every point of it. */
  lemma {:induction false} CornersBoundPoints(pts: seq<Point>)
    requires |pts| > 0
    ensures forall i :: 0 <= i < |pts| ==> Below(MinCorner(pts), pts[i]) && Below(pts[i], MaxCorner(pts))
    decreases |pts|
  {
    if |pts| > 1 {
      var init := pts[..|pts| - 1];
      CornersBoundPoints(init);
      assert forall i :: 0 <= i < |init| ==> pts[i] == init[i];
    }
  }

  /** Each coordinate of the lower corner is attained by some point. */
  lemma {:induction false} MinCornerAttained(pts: seq<Point>)
    requires |pts| > 0
    ensures exists i :: 0 <= i < |pts| && pts[i].x == MinCorner(pts).x
    ensures exists i :: 0 <= i < |pts| && pts[i].y == MinCorner(pts).y
    ensures exists i :: 0 <= i < |pts| && pts[i].z == MinCorner(pts).z
    decreases |pts|
  {
    if |pts| > 1 {
      var init := pts[..|pts| - 1];
      MinCornerAttained(init);
      var n := |pts| - 1;
      var lo := MinCorner(init);
      assert MinCorner(pts) == PointMin(lo, pts[n]);
      if lo.x <= pts[n].x { var i :| 0 <= i < |init| && init[i].x == lo.x; assert pts[i] == init[i]; }
      else { assert pts[n].x == MinCorner(pts).x; }
      if lo.y <= pts[n].y { var i :| 0 <= i < |init| && init[i].y == lo.y; assert pts[i] == init[i]; }
      else { assert pts[n].y == MinCorner(pts).y; }
      if lo.z <= pts[n].z { var i :| 0 <= i < |init| && init[i].z == lo.z; assert pts[i] == init[i]; }
      else { assert pts[n].z == MinCorner(pts).z; }
    } else {
      assert pts[0] == MinCorner(pts);
    }
  }

  /** Each coordinate of the upper corner is attained by some point. */
  lemma {:induction false} MaxCornerAttained(pts: seq<Point>)
    requires |pts| > 0
    ensures exists i :: 0 <= i < |pts| && pts[i].x == MaxCorner(pts).x
    ensures exists i :: 0 <= i < |pts| && pts[i].y == MaxCorner(pts).y
    ensures exists i :: 0 <= i < |pts| && pts[i].z == MaxCorner(pts).z
    decreases |pts|
  {
    if |pts| > 1 {
      var init := pts[..|pts| - 1];
      MaxCornerAttained(init);
      var n := |pts| - 1;
      var hi := MaxCorner(init);
      assert MaxCorner(pts) == PointMax(hi, pts[n]);
      if hi.x <= pts[n].x { assert pts[n].x == MaxCorner(pts).x; }
      else { var i :| 0 <= i < |init| && init[i].x == hi.x; assert pts[i] == init[i]; }
      if hi.y <= pts[n].y { assert pts[n].y == MaxCorner(pts).y; }
      else { var i :| 0 <= i < |init| && init[i].y == hi.y; assert pts[i] == init[i]; }
      if hi.z <= pts[n].z { assert pts[n].z == MaxCorner(pts).z; }
      else { var i :| 0 <= i < |init| && init[i].z == hi.z; assert pts[i] == init[i]; }
    } else {
      assert pts[0] == MaxCorner(pts);
    }
  }

  /** The box of a non-empty point slice holds every point, and each of its
      six corner coordinates is attained by some point of the slice. */
  lemma BoxOfPointsIsTight(pts: seq<Point>)
    requires |pts| > 0
    ensures forall i :: 0 <= i < |pts| ==> ContainsPoint(BoxOfPoints(pts), pts[i])
    ensures exists i :: 0 <= i < |pts| && pts[i].x == MinCorner(pts).x
    ensures exists i :: 0 <= i < |pts| && pts[i].y == MinCorner(pts).y
    ensures exists i :: 0 <= i < |pts| && pts[i].z == MinCorner(pts).z
    ensures exists i :: 0 <= i < |pts| && pts[i].x == MaxCorner(pts).x
    ensures exists i :: 0 <= i < |pts| && pts[i].y == MaxCorner(pts).y
    ensures exists i :: 0 <= i < |pts| && pts[i].z == MaxCorner(pts).z
  {
    CornersBoundPoints(pts);
    MinCornerAttained(pts);
    MaxCornerAttained(pts);
  }

  /** The box of a point slice is the least box holding all its points. */
  lemma {:induction false} BoxOfPointsIsLeast(pts: seq<Point>, c: Box)
    requires |pts| > 0
    requires forall i :: 0 <= i < |pts| ==> ContainsPoint(c, pts[i])
    ensures Contains(c, BoxOfPoints(pts))
    decreases |pts|
  {
    if |pts| > 1 {
      var init := pts[..|pts| - 1];
      assert forall i :: 0 <= i < |init| ==> init[i] == pts[i];
      BoxOfPointsIsLeast(init, c);
    }
  }

  /** `Contains` is a preorder. */
  lemma ContainsIsPreorder(a: Box, b: Box, c: Box)
    ensures Contains(a, a)
    ensures Contains(a, b) && Contains(b, c) ==> Contains(a, c)
  {
  }

  /** `extend` is commutative, associative and idempotent, with the empty box
      as its unit, so the order in which children are folded does not matter. */
  lemma ExtendIsSemilattice(a: Box, b: Box, c: Box)
    ensures Extend(a, b) == Extend(b, a)
    ensures Extend(Extend(a, b), c) == Extend(a, Extend(b, c))
    ensures Extend(a, a) == a
    ensures Extend(Empty, a) == a && Extend(a, Empty) == a
  {
  }

  /** `extend` is the least upper bound for containment. */
  lemma ExtendIsLeast(a: Box, b: Box, c: Box)
    requires Contains(c, a) && Contains(c, b)
    ensures Contains(c, Extend(a, b))
  {
  }

  /** The fold holds its start and every box folded in. */
  lemma {:induction false} ExtendAllContainsEach(acc: Box, bs: seq<Box>)
    ensures Contains(ExtendAll(acc, bs), acc)
    ensures forall i :: 0 <= i < |bs| ==> Contains(ExtendAll(acc, bs), bs[i])
    decreases |bs|
  {
    if bs != [] {
      var acc' := Extend(acc, bs[0]);
      ExtendAllContainsEach(acc', bs[1..]);
      var r := ExtendAll(acc, bs);
      forall i | 0 <= i < |bs| ensures Contains(r, bs[i]) {
        if i == 0 {
          ContainsIsPreorder(r, acc', bs[0]);
        } else {
          assert bs[i] == bs[1..][i - 1];
        }
      }
      ContainsIsPreorder(r, acc', acc);
    }
  }

  /** The fold is the least box holding its start and every box folded in. */
  lemma {:induction false} ExtendAllIsLeast(acc: Box, bs: seq<Box>, c: Box)
    requires Contains(c, acc)
    requires forall i :: 0 <= i < |bs| ==> Contains(c, bs[i])
    ensures Contains(c, ExtendAll(acc, bs))
    decreases |bs|
  {
    if bs != [] {
      ExtendIsLeast(acc, bs[0], c);
      assert forall i :: 0 <= i < |bs[1..]| ==> bs[1..][i] == bs[i + 1];
      ExtendAllIsLeast(Extend(acc, bs[0]), bs[1..], c);
    }
  }

  /** Folding from the empty box gives the empty box exactly when every box
      folded in is empty (a parent with no children, or only empty ones). */
  lemma {:induction false} ExtendAllIsEmptyIff(acc: Box, bs: seq<Box>)
    ensures ExtendAll(acc, bs).Empty? <==> acc.Empty? && forall i :: 0 <= i < |bs| ==> bs[i].Empty?
    decreases |bs|
  {
    if bs != [] {
      ExtendAllIsEmptyIff(Extend(acc, bs[0]), bs[1..]);
      assert forall i :: 0 <= i < |bs[1..]| ==> bs[1..][i] == bs[i + 1];
    }
  }
}
