/** The state of a B-Rep store as a value: the eight topology tables, the four
    growable geometry arrays and the generated-handle counter, together with
    the populators that ingest one record and the const accessors. */
module BRepModel {
  import opened Handles
  import opened Geometry
  import opened Records

  datatype AssemblyData = AssemblyData(parts: seq<PartHandle>)
  datatype PartData = PartData(bodies: seq<BodyHandle>)
  /** `shells` is never filled in: the groupings are built and dropped. `edges`
      and `vertices` are derived bottom-up. */
  datatype BodyData = BodyData(faces: seq<FaceHandle>, shells: seq<ShellHandle>,
                               edges: seq<EdgeHandle>, vertices: seq<VertexHandle>)
  /** `bodies` is derived bottom-up; the rest is set by `addFace`. */
  datatype FaceData = FaceData(edges: seq<EdgeHandle>, loops: seq<LoopHandle>, bodies: seq<BodyHandle>,
                               pointStart: nat, pointSize: nat,
                               facetStart: nat, facetSize: nat,
                               paramStart: nat, paramSize: nat)
  /** `faces` is derived bottom-up. */
  datatype EdgeData = EdgeData(startVertex: VertexHandle, endVertex: VertexHandle, faces: seq<FaceHandle>,
                               pointStart: nat, pointSize: nat,
                               paramStart: nat, paramSize: nat)
  /** `edges` is derived bottom-up. */
  datatype VertexData = VertexData(pointIndex: nat, edges: seq<EdgeHandle>)
  datatype LoopData = LoopData(edges: seq<EdgeHandle>)
  datatype ShellData = ShellData(faces: seq<FaceHandle>)

  /** The per-kind tables, keyed by handle. Their iteration order is
      unspecified, so they are maps. */
  datatype Tables = Tables(
    assemblies: map<AssemblyHandle, AssemblyData>,
    parts: map<PartHandle, PartData>,
    bodies: map<BodyHandle, BodyData>,
    faces: map<FaceHandle, FaceData>,
    edges: map<EdgeHandle, EdgeData>,
    vertices: map<VertexHandle, VertexData>,
    loops: map<LoopHandle, LoopData>,
    shells: map<ShellHandle, ShellData>)

  const EmptyTables: Tables := Tables(map[], map[], map[], map[], map[], map[], map[], map[])

  /** The shared geometry arrays `V_`, `F_`, `FaceParams_` and `EdgeParams_`, one
      element per row. */
  datatype Arrays = Arrays(points: seq<Point>, facets: seq<Triangle>,
                           faceParams: seq<SurfaceParam>, edgeParams: seq<real>)

  const EmptyArrays: Arrays := Arrays([], [], [], [])

  datatype Store = Store(tables: Tables, arrays: Arrays, counter: int)
  {
    /** Every stored range lies inside its array. */
    ghost predicate RangesFit() {
      && (forall f :: f in tables.faces ==> FaceFits(tables.faces[f], arrays))
      && (forall e :: e in tables.edges ==> EdgeFits(tables.edges[e], arrays))
      && (forall v :: v in tables.vertices ==> tables.vertices[v].pointIndex < |arrays.points|)
    }

    /** Stored ranges fit and no two entities share a row of any array. */
    ghost predicate WellFormed() {
      RangesFit() && RangesDisjoint(tables)
    }

    /** `startVertex`: the stored start vertex of a known edge, else the invalid handle. */
    function StartVertex(h: EdgeHandle): (v: VertexHandle)
      ensures h !in tables.edges ==> !v.IsValid()
    {
      if h in tables.edges then tables.edges[h].startVertex else Handle(-1)
    }

    /** `endVertex`: the stored end vertex of a known edge, else the invalid handle. */
    function EndVertex(h: EdgeHandle): (v: VertexHandle)
      ensures h !in tables.edges ==> !v.IsValid()
    {
      if h in tables.edges then tables.edges[h].endVertex else Handle(-1)
    }

    /** `faceEdges`: the stored edge list of a known face, else empty. */
    function FaceEdges(h: FaceHandle): (es: seq<EdgeHandle>)
      ensures h !in tables.faces ==> es == []
    {
      if h in tables.faces then tables.faces[h].edges else []
    }

    /** `bodyFaces`: the stored face list of a known body, else empty. */
    function BodyFaces(h: BodyHandle): (fs: seq<FaceHandle>)
      ensures h !in tables.bodies ==> fs == []
    {
      if h in tables.bodies then tables.bodies[h].faces else []
    }

    /** `partBodies`: the stored body list of a known part, else empty. */
    function PartBodies(h: PartHandle): (bs: seq<BodyHandle>)
      ensures h !in tables.parts ==> bs == []
    {
      if h in tables.parts then tables.parts[h].bodies else []
    }

    /** `faceGeometry`: the face's windows onto the point and triangle arrays;
        both windows are empty for an unknown face. */
    function FaceGeometry(h: FaceHandle): (g: (seq<Point>, seq<Triangle>))
      requires RangesFit()
      ensures h !in tables.faces ==> g == ([], [])
      ensures h in tables.faces ==> |g.0| == tables.faces[h].pointSize && |g.1| == tables.faces[h].facetSize
    {
      if h !in tables.faces then ([], [])
      else
        var d := tables.faces[h];
        (arrays.points[d.pointStart .. d.pointStart + d.pointSize],
         arrays.facets[d.facetStart .. d.facetStart + d.facetSize])
    }

    /** `edgeGeometry`: the edge's window onto the point array; empty for an
        unknown edge. */
    function EdgeGeometry(h: EdgeHandle): (g: seq<Point>)
      requires RangesFit()
      ensures h !in tables.edges ==> g == []
      ensures h in tables.edges ==> |g| == tables.edges[h].pointSize
    {
      if h !in tables.edges then []
      else
        var d := tables.edges[h];
        arrays.points[d.pointStart .. d.pointStart + d.pointSize]
    }
  }

  ghost predicate FaceFits(d: FaceData, a: Arrays) {
    && d.pointStart + d.pointSize <= |a.points|
    && d.facetStart + d.facetSize <= |a.facets|
    && d.paramStart + d.paramSize <= |a.faceParams|
  }

  ghost predicate EdgeFits(d: EdgeData, a: Arrays) {
    && d.pointStart + d.pointSize <= |a.points|
    && d.paramStart + d.paramSize <= |a.edgeParams|
  }

  /** The owner of a run of point rows: faces and edges own slices, a vertex
      owns one row. */
  datatype PointOwner = FaceOwner(f: FaceHandle) | EdgeOwner(e: EdgeHandle) | VertexOwner(v: VertexHandle)

  ghost predicate Owns(t: Tables, o: PointOwner) {
    match o
    case FaceOwner(f) => f in t.faces
    case EdgeOwner(e) => e in t.edges
    case VertexOwner(v) => v in t.vertices
  }

  /** The half-open run [start, end) of point rows an owner holds. */
  ghost function PointRun(t: Tables, o: PointOwner): (nat, nat)
    requires Owns(t, o)
  {
    match o
    case FaceOwner(f) => (t.faces[f].pointStart, t.faces[f].pointStart + t.faces[f].pointSize)
    case EdgeOwner(e) => (t.edges[e].pointStart, t.edges[e].pointStart + t.edges[e].pointSize)
    case VertexOwner(v) => (t.vertices[v].pointIndex, t.vertices[v].pointIndex + 1)
  }

  /** Two half-open runs that lie one after the other. */
  ghost predicate Apart(a: (nat, nat), b: (nat, nat)) {
    a.1 <= b.0 || b.1 <= a.0
  }

  /** No point row belongs to two owners. */
  ghost predicate PointRunsApart(t: Tables) {
    forall o1, o2 :: Owns(t, o1) && Owns(t, o2) && o1 != o2 ==> Apart(PointRun(t, o1), PointRun(t, o2))
  }

  /** The half-open runs of triangle and surface-parameter rows a face holds,
      and of curve-parameter rows an edge holds. */
  ghost function FacetRun(d: FaceData): (nat, nat) {
    (d.facetStart, d.facetStart + d.facetSize)
  }

  ghost function FaceParamRun(d: FaceData): (nat, nat) {
    (d.paramStart, d.paramStart + d.paramSize)
  }

  ghost function EdgeParamRun(d: EdgeData): (nat, nat) {
    (d.paramStart, d.paramStart + d.paramSize)
  }

  /** Two faces share no triangle row and no surface-parameter row. */
  ghost predicate FacesApart(d1: FaceData, d2: FaceData) {
    Apart(FacetRun(d1), FacetRun(d2)) && Apart(FaceParamRun(d1), FaceParamRun(d2))
  }

  /** No triangle row and no surface-parameter row belongs to two faces. */
  ghost predicate FaceRunsApart(t: Tables) {
    forall f1, f2 :: f1 in t.faces && f2 in t.faces && f1 != f2 ==> FacesApart(t.faces[f1], t.faces[f2])
  }

  /** No curve-parameter row belongs to two edges. */
  ghost predicate EdgeRunsApart(t: Tables) {
    forall e1, e2 :: e1 in t.edges && e2 in t.edges && e1 != e2 ==>
      Apart(EdgeParamRun(t.edges[e1]), EdgeParamRun(t.edges[e2]))
  }

  ghost predicate RangesDisjoint(t: Tables) {
    PointRunsApart(t) && FaceRunsApart(t) && EdgeRunsApart(t)
  }

  /** No derived list has been filled in yet and no shell exists. */
  ghost predicate Underived(t: Tables) {
    && (forall b :: b in t.bodies ==> t.bodies[b].shells == [] && t.bodies[b].edges == [] && t.bodies[b].vertices == [])
    && (forall f :: f in t.faces ==> t.faces[f].bodies == [])
    && (forall e :: e in t.edges ==> t.edges[e].faces == [])
    && (forall v :: v in t.vertices ==> t.vertices[v].edges == [])
    && t.shells == map[]
  }

  /** `std::transform` of identifiers into handles of one kind. */
  function ToHandles<K>(ids: seq<int>): (hs: seq<Handle<K>>)
    ensures |hs| == |ids|
  {
    seq(|ids|, i requires 0 <= i < |ids| => Handle(ids[i]))
  }

  /** The `n` loop handles generated from counter value `c`: `++c` each time. */
  function LoopRun(c: int, n: nat): (ls: seq<LoopHandle>)
    ensures |ls| == n
  {
    seq(n, i requires 0 <= i < n => Handle(c + 1 + i))
  }

  /** The loop table after inserting the loops of one face, in order, under
      the handles `c + 1`, `c + 2`, ... */
  function AddLoops(loops: map<LoopHandle, LoopData>, c: int, ls: seq<Loop>): map<LoopHandle, LoopData>
    decreases |ls|
  {
    if ls == [] then loops
    else AddLoops(loops, c, ls[..|ls| - 1])[Handle(c + |ls|) := LoopData(ToHandles(ls[|ls| - 1].edges))]
  }

  /** An edge endpoint: the given identifier when it is non-negative, the
      invalid handle otherwise. */
  function EndpointHandle(id: int): (v: VertexHandle)
    ensures v.IsValid() <==> id >= 0
  {
    if id >= 0 then Handle(id) else Handle(-1)
  }

  function AddAssembly(s: Store, a: Assembly): Store {
    s.(tables := s.tables.(assemblies := s.tables.assemblies[Handle(a.id) := AssemblyData(ToHandles(a.parts))]))
  }

  function AddPart(s: Store, p: Part): Store {
    s.(tables := s.tables.(parts := s.tables.parts[Handle(p.id) := PartData(ToHandles(p.bodies))]))
  }

  /** The shells of the record are grouped and then dropped. */
  function AddBody(s: Store, b: Body): Store {
    s.(tables := s.tables.(bodies := s.tables.bodies[Handle(b.id) := BodyData(ToHandles(b.faces), [], [], [])]))
  }

  function NewFaceData(a: Arrays, c: int, f: Face): FaceData {
    FaceData(ToHandles(f.edges), LoopRun(c, |f.loops|), [],
             |a.points|, |f.surface.points|,
             |a.facets|, |f.surface.triangles|,
             |a.faceParams|, |f.surface.parameters|)
  }

  function AddFace(s: Store, f: Face): Store {
    var a := s.arrays;
    Store(s.tables.(faces := s.tables.faces[Handle(f.id) := NewFaceData(a, s.counter, f)],
                    loops := AddLoops(s.tables.loops, s.counter, f.loops)),
          a.(points := a.points + f.surface.points,
             facets := a.facets + f.surface.triangles,
             faceParams := a.faceParams + f.surface.parameters),
          s.counter + |f.loops|)
  }

  function NewEdgeData(a: Arrays, e: Edge): EdgeData {
    EdgeData(EndpointHandle(e.start), EndpointHandle(e.end), [],
             |a.points|, |e.curve.points|,
             |a.edgeParams|, |e.curve.parameters|)
  }

  function AddEdge(s: Store, e: Edge): Store {
    var a := s.arrays;
    s.(tables := s.tables.(edges := s.tables.edges[Handle(e.id) := NewEdgeData(a, e)]),
       arrays := a.(points := a.points + e.curve.points, edgeParams := a.edgeParams + e.curve.parameters))
  }

  function AddVertex(s: Store, v: Vertex): Store {
    var a := s.arrays;
    s.(tables := s.tables.(vertices := s.tables.vertices[Handle(v.id) := VertexData(|a.points|, [])]),
       arrays := a.(points := a.points + [v.point]))
  }

  /** `addBRepEntity`: dispatch on the record's kind; an unknown record changes
      nothing and reports failure. */
  function AddRecord(s: Store, e: BRepEntity): (Store, bool) {
    match e
    case AssemblyEntity(a) => (AddAssembly(s, a), true)
    case PartEntity(p) => (AddPart(s, p), true)
    case BodyEntity(b) => (AddBody(s, b), true)
    case FaceEntity(f) => (AddFace(s, f), true)
    case EdgeEntity(ed) => (AddEdge(s, ed), true)
    case VertexEntity(v) => (AddVertex(s, v), true)
    case UnknownEntity => (s, false)
  }

  /** Adding every record in stream order, AND-ing the per-record results. */
  function IngestAll(s: Store, es: seq<BRepEntity>): (Store, bool)
    decreases |es|
  {
    if es == [] then (s, true)
    else
      var (s', ok) := IngestAll(s, es[..|es| - 1]);
      var (s'', ok') := AddRecord(s', es[|es| - 1]);
      (s'', ok && ok')
  }

  /** `resetGeneratedHandleId`'s running maximum: -1 folded with `max` over the
      identifiers of the known records. */
  function MaxKnownId(es: seq<BRepEntity>): int
    decreases |es|
  {
    if es == [] then -1
    else
      var m := MaxKnownId(es[..|es| - 1]);
      var e := es[|es| - 1];
      if e.IsKnown() && e.Id() > m then e.Id() else m
  }

  /** The store after `reset` and `resetGeneratedHandleId`: empty tables, the
      arrays kept, the counter one past the largest known identifier. */
  function Prepared(a: Arrays, es: seq<BRepEntity>): Store {
    Store(EmptyTables, a, MaxKnownId(es) + 1)
  }

  /** The store, and the AND of the per-record results, after the populating
      pass of `buildBRepFromEntityStream`. */
  function Ingested(a: Arrays, es: seq<BRepEntity>): (Store, bool) {
    IngestAll(Prepared(a, es), es)
  }
}
