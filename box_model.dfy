/** The bounding boxes the store computes, as functions of its state. A face
    or edge box spans its point slice; a body, part or assembly box is
    `extend` folded from the empty box over its children's boxes, in list
    order. An unknown handle has the empty box. */
module BoundingBoxes {
  import opened Handles
  import opened Geometry
  import opened BRepModel

  /** A face box is defined unless the face is known with no point rows, where
      `colwise().minCoeff()` would run over an empty block. */
  ghost predicate FaceBoxDefined(s: Store, h: FaceHandle) {
    h in s.tables.faces ==> s.tables.faces[h].pointSize > 0
  }

  ghost predicate EdgeBoxDefined(s: Store, h: EdgeHandle) {
    h in s.tables.edges ==> s.tables.edges[h].pointSize > 0
  }

  ghost predicate BodyBoxDefined(s: Store, h: BodyHandle) {
    h in s.tables.bodies ==> forall f :: f in s.tables.bodies[h].faces ==> FaceBoxDefined(s, f)
  }

  ghost predicate PartBoxDefined(s: Store, h: PartHandle) {
    h in s.tables.parts ==> forall b :: b in s.tables.parts[h].bodies ==> BodyBoxDefined(s, b)
  }

  ghost predicate AssemblyBoxDefined(s: Store, h: AssemblyHandle) {
    h in s.tables.assemblies ==> forall p :: p in s.tables.assemblies[h].parts ==> PartBoxDefined(s, p)
  }

  /** `boundingBox(FaceHandle)`: the box of the face's point slice. */
  function FaceBox(s: Store, h: FaceHandle): (r: Box)
    requires s.RangesFit() && FaceBoxDefined(s, h)
    ensures h !in s.tables.faces ==> r == Empty
  {
    if h !in s.tables.faces then Empty else BoxOfPoints(s.FaceGeometry(h).0)
  }

  /** `boundingBox(EdgeHandle)`: the box of the edge's point slice. */
  function EdgeBox(s: Store, h: EdgeHandle): (r: Box)
    requires s.RangesFit() && EdgeBoxDefined(s, h)
    ensures h !in s.tables.edges ==> r == Empty
  {
    if h !in s.tables.edges then Empty else BoxOfPoints(s.EdgeGeometry(h))
  }

  /** The boxes of a list of faces, in list order. */
  function FaceBoxes(s: Store, fs: seq<FaceHandle>): (bs: seq<Box>)
    requires s.RangesFit() && forall f :: f in fs ==> FaceBoxDefined(s, f)
    ensures |bs| == |fs| && forall i :: 0 <= i < |fs| ==> bs[i] == FaceBox(s, fs[i])
    decreases |fs|
  {
    if fs == [] then [] else FaceBoxes(s, fs[..|fs| - 1]) + [FaceBox(s, fs[|fs| - 1])]
  }

  function BodyBoxes(s: Store, bs: seq<BodyHandle>): (r: seq<Box>)
    requires s.RangesFit() && forall b :: b in bs ==> BodyBoxDefined(s, b)
    ensures |r| == |bs| && forall i :: 0 <= i < |bs| ==> r[i] == BodyBox(s, bs[i])
    decreases |bs|
  {
    if bs == [] then [] else BodyBoxes(s, bs[..|bs| - 1]) + [BodyBox(s, bs[|bs| - 1])]
  }

  function PartBoxes(s: Store, ps: seq<PartHandle>): (r: seq<Box>)
    requires s.RangesFit() && forall p :: p in ps ==> PartBoxDefined(s, p)
    ensures |r| == |ps| && forall i :: 0 <= i < |ps| ==> r[i] == PartBox(s, ps[i])
    decreases |ps|
  {
    if ps == [] then [] else PartBoxes(s, ps[..|ps| - 1]) + [PartBox(s, ps[|ps| - 1])]
  }

  /** `boundingBox(BodyHandle)`: the fold of its faces' boxes. */
  function BodyBox(s: Store, h: BodyHandle): Box
    requires s.RangesFit() && BodyBoxDefined(s, h)
  {
    if h !in s.tables.bodies then Empty else ExtendAll(Empty, FaceBoxes(s, s.tables.bodies[h].faces))
  }

  /** `boundingBox(PartHandle)`: the fold of its bodies' boxes. */
  function PartBox(s: Store, h: PartHandle): Box
    requires s.RangesFit() && PartBoxDefined(s, h)
  {
    if h !in s.tables.parts then Empty else ExtendAll(Empty, BodyBoxes(s, s.tables.parts[h].bodies))
  }

  /** `boundingBox(AssemblyHandle)`: the fold of its parts' boxes. */
  function AssemblyBox(s: Store, h: AssemblyHandle): Box
    requires s.RangesFit() && AssemblyBoxDefined(s, h)
  {
    if h !in s.tables.assemblies then Empty else ExtendAll(Empty, PartBoxes(s, s.tables.assemblies[h].parts))
  }

  /** A known face's box holds every row of its point slice, is the least box
      that does, and each corner coordinate is attained by a row. */
  lemma FaceBoxIsTight(s: Store, h: FaceHandle, c: Box)
    requires s.RangesFit() && h in s.tables.faces && s.tables.faces[h].pointSize > 0
    ensures var pts := s.FaceGeometry(h).0;
      && (forall i :: 0 <= i < |pts| ==> ContainsPoint(FaceBox(s, h), pts[i]))
      && (exists i :: 0 <= i < |pts| && pts[i].x == FaceBox(s, h).lo.x)
      && (exists i :: 0 <= i < |pts| && pts[i].y == FaceBox(s, h).lo.y)
      && (exists i :: 0 <= i < |pts| && pts[i].z == FaceBox(s, h).lo.z)
      && (exists i :: 0 <= i < |pts| && pts[i].x == FaceBox(s, h).hi.x)
      && (exists i :: 0 <= i < |pts| && pts[i].y == FaceBox(s, h).hi.y)
      && (exists i :: 0 <= i < |pts| && pts[i].z == FaceBox(s, h).hi.z)
      && ((forall i :: 0 <= i < |pts| ==> ContainsPoint(c, pts[i])) ==> Contains(c, FaceBox(s, h)))
  {
    var pts := s.FaceGeometry(h).0;
    BoxOfPointsIsTight(pts);
    if forall i :: 0 <= i < |pts| ==> ContainsPoint(c, pts[i]) {
      BoxOfPointsIsLeast(pts, c);
    }
  }

  /** A known edge's box holds every row of its point slice, is the least box
      that does, and each corner coordinate is attained by a row. */
  lemma EdgeBoxIsTight(s: Store, h: EdgeHandle, c: Box)
    requires s.RangesFit() && h in s.tables.edges && s.tables.edges[h].pointSize > 0
    ensures var pts := s.EdgeGeometry(h);
      && (forall i :: 0 <= i < |pts| ==> ContainsPoint(EdgeBox(s, h), pts[i]))
      && (exists i :: 0 <= i < |pts| && pts[i].x == EdgeBox(s, h).lo.x)
      && (exists i :: 0 <= i < |pts| && pts[i].y == EdgeBox(s, h).lo.y)
      && (exists i :: 0 <= i < |pts| && pts[i].z == EdgeBox(s, h).lo.z)
      && (exists i :: 0 <= i < |pts| && pts[i].x == EdgeBox(s, h).hi.x)
      && (exists i :: 0 <= i < |pts| && pts[i].y == EdgeBox(s, h).hi.y)
      && (exists i :: 0 <= i < |pts| && pts[i].z == EdgeBox(s, h).hi.z)
      && ((forall i :: 0 <= i < |pts| ==> ContainsPoint(c, pts[i])) ==> Contains(c, EdgeBox(s, h)))
  {
    var pts := s.EdgeGeometry(h);
    BoxOfPointsIsTight(pts);
    if forall i :: 0 <= i < |pts| ==> ContainsPoint(c, pts[i]) {
      BoxOfPointsIsLeast(pts, c);
    }
  }

  /** A fold from the empty box is the least box holding every box folded in. */
  lemma FoldIsLeastUpperBound(bs: seq<Box>, c: Box)
    ensures forall i :: 0 <= i < |bs| ==> Contains(ExtendAll(Empty, bs), bs[i])
    ensures (forall i :: 0 <= i < |bs| ==> Contains(c, bs[i])) ==> Contains(c, ExtendAll(Empty, bs))
  {
    ExtendAllContainsEach(Empty, bs);
    if forall i :: 0 <= i < |bs| ==> Contains(c, bs[i]) {
      ExtendAllIsLeast(Empty, bs, c);
    }
  }

  /** A body's box holds each of its faces' boxes and is the least box that
      does; it is empty exactly when the body is unknown or none of its faces
      is in the table. */
  lemma BodyBoxIsUnionOfFaces(s: Store, h: BodyHandle, c: Box)
    requires s.RangesFit() && BodyBoxDefined(s, h) && h in s.tables.bodies
    ensures var fs := s.tables.bodies[h].faces;
      && (forall f :: f in fs ==> Contains(BodyBox(s, h), FaceBox(s, f)))
      && ((forall f :: f in fs ==> Contains(c, FaceBox(s, f))) ==> Contains(c, BodyBox(s, h)))
      && (BodyBox(s, h).Empty? <==> forall f :: f in fs ==> f !in s.tables.faces)
  {
    var fs := s.tables.bodies[h].faces;
    var bs := FaceBoxes(s, fs);
    FoldIsLeastUpperBound(bs, c);
    ExtendAllIsEmptyIff(Empty, bs);
    forall f | f in fs ensures Contains(BodyBox(s, h), FaceBox(s, f)) {
      var i :| 0 <= i < |fs| && fs[i] == f;
      assert bs[i] == FaceBox(s, f);
    }
    if forall f :: f in fs ==> Contains(c, FaceBox(s, f)) {
      assert forall i :: 0 <= i < |bs| ==> Contains(c, bs[i]);
    }
    forall f | f in fs && f in s.tables.faces ensures FaceBox(s, f).Box? {
      assert FaceBox(s, f) == BoxOfPoints(s.FaceGeometry(f).0);
    }
    if forall f :: f in fs ==> f !in s.tables.faces {
      assert forall i :: 0 <= i < |bs| ==> bs[i].Empty?;
    }
    if BodyBox(s, h).Empty? {
      forall f | f in fs ensures f !in s.tables.faces {
        var i :| 0 <= i < |fs| && fs[i] == f;
        assert bs[i].Empty?;
      }
    }
  }

  /** A part's box holds each of its bodies' boxes and is the least box that
      does. */
  lemma PartBoxIsUnionOfBodies(s: Store, h: PartHandle, c: Box)
    requires s.RangesFit() && PartBoxDefined(s, h) && h in s.tables.parts
    ensures var bodies := s.tables.parts[h].bodies;
      && (forall b :: b in bodies ==> Contains(PartBox(s, h), BodyBox(s, b)))
      && ((forall b :: b in bodies ==> Contains(c, BodyBox(s, b))) ==> Contains(c, PartBox(s, h)))
  {
    var bodies := s.tables.parts[h].bodies;
    var bs := BodyBoxes(s, bodies);
    FoldIsLeastUpperBound(bs, c);
    forall b | b in bodies ensures Contains(PartBox(s, h), BodyBox(s, b)) {
      var i :| 0 <= i < |bodies| && bodies[i] == b;
      assert bs[i] == BodyBox(s, b);
    }
    if forall b :: b in bodies ==> Contains(c, BodyBox(s, b)) {
      assert forall i :: 0 <= i < |bs| ==> Contains(c, bs[i]);
    }
  }

  /** An assembly's box holds each of its parts' boxes and is the least box
      that does. */
  lemma AssemblyBoxIsUnionOfParts(s: Store, h: AssemblyHandle, c: Box)
    requires s.RangesFit() && AssemblyBoxDefined(s, h) && h in s.tables.assemblies
    ensures var parts := s.tables.assemblies[h].parts;
      && (forall p :: p in parts ==> Contains(AssemblyBox(s, h), PartBox(s, p)))
      && ((forall p :: p in parts ==> Contains(c, PartBox(s, p))) ==> Contains(c, AssemblyBox(s, h)))
  {
    var parts := s.tables.assemblies[h].parts;
    var bs := PartBoxes(s, parts);
    FoldIsLeastUpperBound(bs, c);
    forall p | p in parts ensures Contains(AssemblyBox(s, h), PartBox(s, p)) {
      var i :| 0 <= i < |parts| && parts[i] == p;
      assert bs[i] == PartBox(s, p);
    }
    if forall p :: p in parts ==> Contains(c, PartBox(s, p)) {
      assert forall i :: 0 <= i < |bs| ==> Contains(c, bs[i]);
    }
  }

  /** Every point row of every known face of a body lies in the body's box. */
  lemma BodyBoxHoldsFacePoints(s: Store, h: BodyHandle, f: FaceHandle, i: nat)
    requires s.RangesFit() && BodyBoxDefined(s, h) && h in s.tables.bodies
    requires f in s.tables.bodies[h].faces && f in s.tables.faces && i < |s.FaceGeometry(f).0|
    ensures ContainsPoint(BodyBox(s, h), s.FaceGeometry(f).0[i])
  {
    BodyBoxIsUnionOfFaces(s, h, Empty);
    FaceBoxIsTight(s, f, Empty);
  }

  /** Two boxes that contain each other are equal. */
  lemma ContainsIsAntisymmetric(a: Box, b: Box)
    requires Contains(a, b) && Contains(b, a)
    ensures a == b
  {
    if a.Box? && b.Box? {
      assert a.lo == b.lo && a.hi == b.hi;
    }
  }

  /** The order and multiplicity of children do not matter: folds over two
      lists holding the same boxes are equal. */
  lemma FoldDependsOnlyOnElements(bs1: seq<Box>, bs2: seq<Box>)
    requires forall x :: x in bs1 <==> x in bs2
    ensures ExtendAll(Empty, bs1) == ExtendAll(Empty, bs2)
  {
    var r1, r2 := ExtendAll(Empty, bs1), ExtendAll(Empty, bs2);
    ExtendAllContainsEach(Empty, bs1);
    ExtendAllContainsEach(Empty, bs2);
    assert forall i :: 0 <= i < |bs2| ==> bs2[i] in bs1;
    assert forall i :: 0 <= i < |bs1| ==> bs1[i] in bs2;
    ExtendAllIsLeast(Empty, bs2, r1);
    ExtendAllIsLeast(Empty, bs1, r2);
    ContainsIsAntisymmetric(r1, r2);
  }
}
