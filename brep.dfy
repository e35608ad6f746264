/** The store itself: an object whose tables, geometry arrays, counter and
    bounding-box caches its methods update in place. Each method is specified
    against the value model of `BRepModel`, `Derivation` and `BoundingBoxes`
    through `Model()`. */
module BRepStore {
  import opened Handles
  import opened Geometry
  import opened Records
  import opened BRepModel
  import opened HandleSets
  import opened Derivation
  import opened BoundingBoxes
  import opened IngestLaws

  /** How `buildBottomUpTopology`, and so a build, ends: by returning a result,
      or by the `std::out_of_range` that a failed `at` lookup throws. */
  datatype BuildOutcome = Returned(success: bool) | OutOfRange

  /** `operator[]` on a local map of sets: a missing key reads as the empty set. */
  function Lookup<K, V>(m: map<K, set<V>>, k: K): (r: set<V>)
    ensures k !in m ==> r == {}
  {
    if k in m then m[k] else {}
  }

  /** `colwise().minCoeff()` of a non-empty block of point rows. */
  method ColwiseMin(pts: seq<Point>) returns (m: Point)
    requires |pts| > 0
    ensures m == MinCorner(pts)
  {
    m := pts[0];
    for k := 1 to |pts|
      invariant m == MinCorner(pts[..k])
    {
      assert pts[..k + 1][..k] == pts[..k];
      m := PointMin(m, pts[k]);
    }
    assert pts[..|pts|] == pts;
  }

  /** `colwise().maxCoeff()` of a non-empty block of point rows. */
  method ColwiseMax(pts: seq<Point>) returns (m: Point)
    requires |pts| > 0
    ensures m == MaxCorner(pts)
  {
    m := pts[0];
    for k := 1 to |pts|
      invariant m == MaxCorner(pts[..k])
    {
      assert pts[..k + 1][..k] == pts[..k];
      m := PointMax(m, pts[k]);
    }
    assert pts[..|pts|] == pts;
  }

  /** `std::accumulate` of `extend` from the empty box. */
  method Accumulate(boxes: seq<Box>) returns (b: Box)
    ensures b == ExtendAll(Empty, boxes)
  {
    b := Empty;
    for k := 0 to |boxes|
      invariant ExtendAll(b, boxes[k..]) == ExtendAll(Empty, boxes)
    {
      assert boxes[k..][1..] == boxes[k + 1..];
      b := Extend(b, boxes[k]);
    }
  }

  /** Inserting `x` into the set at each key of `ks`, `operator[]` creating
      the sets that are missing. */
  method InsertAll<K(!new), V>(m: map<K, set<V>>, ks: seq<K>, x: V) returns (m': map<K, set<V>>)
    ensures forall k :: Lookup(m', k) == Lookup(m, k) + (if k in ks then {x} else {})
  {
    m' := m;
    for i := 0 to |ks|
      invariant forall k :: Lookup(m', k) == Lookup(m, k) + (if k in ks[..i] then {x} else {})
    {
      m' := m'[ks[i] := Lookup(m', ks[i]) + {x}];
      assert forall k :: k in ks[..i + 1] <==> k in ks[..i] || k == ks[i];
    }
    assert ks[..|ks|] == ks;
  }

  /** One edge's contribution to the first map: the edge under each of its
      valid endpoints, the end vertex first. */
  method InsertEndpoints(m: map<VertexHandle, set<EdgeHandle>>, e: EdgeHandle, d: EdgeData)
    returns (m': map<VertexHandle, set<EdgeHandle>>)
    ensures forall v :: Lookup(m', v) == Lookup(m, v) + (if v in Endpoints(d) then {e} else {})
  {
    m' := m;
    if d.endVertex.IsValid() {
      m' := m'[d.endVertex := Lookup(m', d.endVertex) + {e}];
    }
    if d.startVertex.IsValid() {
      m' := m'[d.startVertex := Lookup(m', d.startVertex) + {e}];
    }
  }

  /** The first map of `buildBottomUpTopology`: each valid endpoint to the
      edges that name it. */
  method VertexToEdges(edges: map<EdgeHandle, EdgeData>) returns (m: map<VertexHandle, set<EdgeHandle>>)
    ensures forall v :: Lookup(m, v) == IncidentAmong(edges, edges.Keys, v)
  {
    m := map[];
    var todo := edges.Keys;
    ghost var done: set<EdgeHandle> := {};
    while todo != {}
      invariant todo <= edges.Keys
      invariant forall e :: e in edges ==> e in done || e in todo
      invariant forall e :: e in done ==> e in edges && e !in todo
      invariant forall v :: Lookup(m, v) == IncidentAmong(edges, done, v)
      decreases |todo|
    {
      var e :| e in todo;
      m := InsertEndpoints(m, e, edges[e]);
      forall v ensures Lookup(m, v) == IncidentAmong(edges, done + {e}, v) {
        IncidentStep(edges, done, e, v);
      }
      todo, done := todo - {e}, done + {e};
    }
    assert done == edges.Keys;
  }

  lemma IncidentStep(edges: map<EdgeHandle, EdgeData>, done: set<EdgeHandle>, e: EdgeHandle, v: VertexHandle)
    requires e in edges
    ensures IncidentAmong(edges, done + {e}, v) == IncidentAmong(edges, done, v) + (if v in Endpoints(edges[e]) then {e} else {})
  {
  }

  /** The second map: each edge to the faces that list it. */
  method EdgesToFaces(faces: map<FaceHandle, FaceData>) returns (m: map<EdgeHandle, set<FaceHandle>>)
    ensures forall e :: Lookup(m, e) == AdjacentAmong(faces, faces.Keys, e)
  {
    m := map[];
    var todo := faces.Keys;
    ghost var done: set<FaceHandle> := {};
    while todo != {}
      invariant todo <= faces.Keys
      invariant forall f :: f in faces ==> f in done || f in todo
      invariant forall f :: f in done ==> f in faces && f !in todo
      invariant forall e :: Lookup(m, e) == AdjacentAmong(faces, done, e)
      decreases |todo|
    {
      var f :| f in todo;
      m := InsertAll(m, faces[f].edges, f);
      forall e ensures Lookup(m, e) == AdjacentAmong(faces, done + {f}, e) {
        AdjacentStep(faces, done, f, e);
      }
      todo, done := todo - {f}, done + {f};
    }
    assert done == faces.Keys;
  }

  lemma AdjacentStep(faces: map<FaceHandle, FaceData>, done: set<FaceHandle>, f: FaceHandle, e: EdgeHandle)
    requires f in faces
    ensures AdjacentAmong(faces, done + {f}, e) == AdjacentAmong(faces, done, e) + (if e in faces[f].edges then {f} else {})
  {
  }

  /** The third map: each face to the bodies that list it. */
  method FacesToBodies(bodies: map<BodyHandle, BodyData>) returns (m: map<FaceHandle, set<BodyHandle>>)
    ensures forall f :: Lookup(m, f) == OwnersAmong(bodies, bodies.Keys, f)
  {
    m := map[];
    var todo := bodies.Keys;
    ghost var done: set<BodyHandle> := {};
    while todo != {}
      invariant todo <= bodies.Keys
      invariant forall b :: b in bodies ==> b in done || b in todo
      invariant forall b :: b in done ==> b in bodies && b !in todo
      invariant forall f :: Lookup(m, f) == OwnersAmong(bodies, done, f)
      decreases |todo|
    {
      var b :| b in todo;
      m := InsertAll(m, bodies[b].faces, b);
      forall f ensures Lookup(m, f) == OwnersAmong(bodies, done + {b}, f) {
        OwnersStep(bodies, done, b, f);
      }
      todo, done := todo - {b}, done + {b};
    }
    assert done == bodies.Keys;
  }

  lemma OwnersStep(bodies: map<BodyHandle, BodyData>, done: set<BodyHandle>, b: BodyHandle, f: FaceHandle)
    requires b in bodies
    ensures OwnersAmong(bodies, done + {b}, f) == OwnersAmong(bodies, done, f) + (if f in bodies[b].faces then {b} else {})
  {
  }

  /** Appending each vertex's ascending edge set to its edge list, as the
      second loop of the vertex phase does in place. */
  method AppendVertexEdges(vertices: map<VertexHandle, VertexData>, m: map<VertexHandle, set<EdgeHandle>>)
    returns (r: map<VertexHandle, VertexData>)
    ensures forall v :: v in r <==> v in vertices
    ensures forall v :: v in vertices ==> r[v] == vertices[v].(edges := vertices[v].edges + InOrder(Lookup(m, v)))
  {
    r := vertices;
    var todo := vertices.Keys;
    while todo != {}
      invariant forall v :: v in r <==> v in vertices
      invariant forall v :: v in todo ==> v in vertices && r[v] == vertices[v]
      invariant forall v :: v in vertices && v !in todo ==> r[v] == vertices[v].(edges := vertices[v].edges + InOrder(Lookup(m, v)))
      decreases |todo|
    {
      var v :| v in todo;
      var l := CopyInOrder(Lookup(m, v));
      r := r[v := r[v].(edges := r[v].edges + l)];
      todo := todo - {v};
    }
  }

  /** Appending each edge's ascending face set to its face list. */
  method AppendEdgeFaces(edges: map<EdgeHandle, EdgeData>, m: map<EdgeHandle, set<FaceHandle>>)
    returns (r: map<EdgeHandle, EdgeData>)
    ensures forall e :: e in r <==> e in edges
    ensures forall e :: e in edges ==> r[e] == edges[e].(faces := edges[e].faces + InOrder(Lookup(m, e)))
  {
    r := edges;
    var todo := edges.Keys;
    while todo != {}
      invariant forall e :: e in r <==> e in edges
      invariant forall e :: e in todo ==> e in edges && r[e] == edges[e]
      invariant forall e :: e in edges && e !in todo ==> r[e] == edges[e].(faces := edges[e].faces + InOrder(Lookup(m, e)))
      decreases |todo|
    {
      var e :| e in todo;
      var l := CopyInOrder(Lookup(m, e));
      r := r[e := r[e].(faces := r[e].faces + l)];
      todo := todo - {e};
    }
  }

  /** Appending each face's ascending body set to its body list. */
  method AppendFaceBodies(faces: map<FaceHandle, FaceData>, m: map<FaceHandle, set<BodyHandle>>)
    returns (r: map<FaceHandle, FaceData>)
    ensures forall f :: f in r <==> f in faces
    ensures forall f :: f in faces ==> r[f] == faces[f].(bodies := faces[f].bodies + InOrder(Lookup(m, f)))
  {
    r := faces;
    var todo := faces.Keys;
    while todo != {}
      invariant forall f :: f in r <==> f in faces
      invariant forall f :: f in todo ==> f in faces && r[f] == faces[f]
      invariant forall f :: f in faces && f !in todo ==> r[f] == faces[f].(bodies := faces[f].bodies + InOrder(Lookup(m, f)))
      decreases |todo|
    {
      var f :| f in todo;
      var l := CopyInOrder(Lookup(m, f));
      r := r[f := r[f].(bodies := r[f].bodies + l)];
      todo := todo - {f};
    }
  }

  /** The face loop of the body phase: the union of the listed faces' edge
      lists, failing at the first face `Faces_.at` does not find. */
  method CollectBodyEdges(faces: map<FaceHandle, FaceData>, fs: seq<FaceHandle>)
    returns (ok: bool, bodyEdges: set<EdgeHandle>)
    ensures ok <==> forall f :: f in fs ==> f in faces
    ensures ok ==> bodyEdges == EdgesOfFaces(faces, fs)
  {
    bodyEdges := {};
    for k := 0 to |fs|
      invariant forall j :: 0 <= j < k ==> fs[j] in faces
      invariant bodyEdges == EdgesOfFaces(faces, fs[..k])
    {
      if fs[k] !in faces {
        return false, bodyEdges;
      }
      bodyEdges := bodyEdges + (set e | e in faces[fs[k]].edges);
      EdgesOfFacesStep(faces, fs, k);
    }
    assert fs[..|fs|] == fs;
    ok := true;
  }

  lemma EdgesOfFacesStep(faces: map<FaceHandle, FaceData>, fs: seq<FaceHandle>, k: nat)
    requires k < |fs| && fs[k] in faces
    ensures EdgesOfFaces(faces, fs[..k + 1]) == EdgesOfFaces(faces, fs[..k]) + (set e | e in faces[fs[k]].edges)
  {
    assert forall f :: f in fs[..k + 1] <==> f in fs[..k] || f == fs[k];
  }

  /** The edge loop of the body phase: the valid endpoints of the collected
      edges, failing when `Edges_.at` does not find one of them. */
  method CollectBodyVertices(edges: map<EdgeHandle, EdgeData>, bodyEdges: set<EdgeHandle>)
    returns (ok: bool, bodyVertices: set<VertexHandle>)
    ensures ok <==> forall e :: e in bodyEdges ==> e in edges
    ensures ok ==> bodyVertices == EndpointsOf(edges, bodyEdges)
  {
    bodyVertices := {};
    var todo := bodyEdges;
    ghost var done: set<EdgeHandle> := {};
    while todo != {}
      invariant todo <= bodyEdges
      invariant forall e :: e in bodyEdges ==> e in done || e in todo
      invariant forall e :: e in done ==> e in bodyEdges && e in edges && e !in todo
      invariant bodyVertices == EndpointsOf(edges, done)
      decreases |todo|
    {
      var e :| e in todo;
      if e !in edges {
        return false, bodyVertices;
      }
      bodyVertices := AddEndpoints(bodyVertices, edges[e]);
      EndpointsOfStep(edges, done, e);
      todo, done := todo - {e}, done + {e};
    }
    assert done == bodyEdges;
    ok := true;
  }

  /** The two guarded inserts of one edge's endpoints, the start first. */
  method AddEndpoints(vs: set<VertexHandle>, d: EdgeData) returns (vs': set<VertexHandle>)
    ensures vs' == vs + Endpoints(d)
  {
    vs' := vs;
    if d.startVertex.IsValid() {
      vs' := vs' + {d.startVertex};
    }
    if d.endVertex.IsValid() {
      vs' := vs' + {d.endVertex};
    }
  }

  lemma EndpointsOfStep(edges: map<EdgeHandle, EdgeData>, done: set<EdgeHandle>, e: EdgeHandle)
    requires e in edges
    ensures EndpointsOf(edges, done + {e}) == EndpointsOf(edges, done) + Endpoints(edges[e])
  {
  }

  /** The body a completed iteration of the body phase leaves. */
  lemma BodyStepDone(t: Tables, b: BodyHandle, el: seq<EdgeHandle>, vl: seq<VertexHandle>)
    requires b in t.bodies
    requires el == InOrder(EdgesOfFaces(t.faces, t.bodies[b].faces))
    requires vl == InOrder(EndpointsOf(t.edges, EdgesOfFaces(t.faces, t.bodies[b].faces)))
    ensures t.bodies[b].(edges := t.bodies[b].edges + el).(vertices := t.bodies[b].vertices + vl) == WithBodyTopology(t, b)
  {
    assert EdgesOfFaces(t.faces, t.bodies[b].faces) == BodyEdges(t, b);
    assert EndpointsOf(t.edges, BodyEdges(t, b)) == BodyVertices(t, b);
  }

  /** One iteration of the body phase: the body's edges appended, then its
      vertices; a throw leaves the body untouched, or with only its edges
      appended. */
  method DeriveBody(t: Tables, b: BodyHandle) returns (outcome: BuildOutcome, d': BodyData)
    requires b in t.bodies
    ensures outcome == OutOfRange <==> !BodyResolves(t, b)
    ensures outcome.Returned? ==> outcome.success && d' == WithBodyTopology(t, b)
    ensures outcome.OutOfRange? ==>
      d' == t.bodies[b] || ((forall f :: f in t.bodies[b].faces ==> f in t.faces) && d' == WithBodyEdges(t, b))
  {
    var d := t.bodies[b];
    d' := d;
    EdgesOfFacesIsBodyEdges(t, b);
    var ok, bodyEdges := CollectBodyEdges(t.faces, d.faces);
    if !ok {
      return OutOfRange, d';
    }
    var el := CopyInOrder(bodyEdges);
    d' := d.(edges := d.edges + el);
    var bodyVertices;
    ok, bodyVertices := CollectBodyVertices(t.edges, bodyEdges);
    if !ok {
      return OutOfRange, d';
    }
    var vl := CopyInOrder(bodyVertices);
    d' := d'.(vertices := d.vertices + vl);
    BodyStepDone(t, b, el, vl);
    outcome := Returned(true);
  }

  /** The body phase: the bodies in turn; a failed lookup stops the phase
      where it is. */
  method DeriveBodyLists(t: Tables) returns (outcome: BuildOutcome, r: map<BodyHandle, BodyData>)
    ensures outcome == OutOfRange <==> !BodiesResolve(t)
    ensures outcome.Returned? ==> outcome.success && r == map b | b in t.bodies :: WithBodyTopology(t, b)
    ensures outcome.OutOfRange? ==> PartialBodies(t, r)
  {
    r := t.bodies;
    var todo := t.bodies.Keys;
    ghost var done: set<BodyHandle> := {};
    while todo != {}
      invariant BodyPhase(t, r, done, todo)
      decreases |todo|
    {
      var b :| b in todo;
      var d';
      outcome, d' := DeriveBody(t, b);
      ghost var r0 := r;
      r := r[b := d'];
      if outcome.OutOfRange? {
        PartialAfterThrow(t, r0, done, todo, b, d');
        return;
      }
      BodyPhaseStep(t, r0, done, todo, b);
      todo, done := todo - {b}, done + {b};
    }
    outcome := Returned(true);
    AllDerived(t, r, done);
  }

  /** The state of the body phase between iterations: the `done` bodies
      derived, the `todo` ones untouched. */
  ghost predicate BodyPhase(t: Tables, r: map<BodyHandle, BodyData>, done: set<BodyHandle>, todo: set<BodyHandle>) {
    && (forall b :: b in r <==> b in t.bodies)
    && (forall b :: b in t.bodies ==> b in done || b in todo)
    && (forall b :: b in todo ==> b in t.bodies && b !in done && r[b] == t.bodies[b])
    && (forall b :: b in done ==> b in t.bodies && BodyResolves(t, b) && r[b] == WithBodyTopology(t, b))
  }

  lemma BodyPhaseStep(t: Tables, r: map<BodyHandle, BodyData>, done: set<BodyHandle>, todo: set<BodyHandle>, b: BodyHandle)
    requires BodyPhase(t, r, done, todo) && b in todo && BodyResolves(t, b)
    ensures BodyPhase(t, r[b := WithBodyTopology(t, b)], done + {b}, todo - {b})
  {
    var r', done', todo' := r[b := WithBodyTopology(t, b)], done + {b}, todo - {b};
    forall x | x in todo' ensures x in t.bodies && x !in done' && r'[x] == t.bodies[x] {
      assert x != b;
    }
    forall x | x in done' ensures x in t.bodies && BodyResolves(t, x) && r'[x] == WithBodyTopology(t, x) {
      if x != b {
        assert x in done;
      }
    }
  }

  lemma AllDerived(t: Tables, r: map<BodyHandle, BodyData>, done: set<BodyHandle>)
    requires BodyPhase(t, r, done, {})
    ensures BodiesResolve(t) && r == map b | b in t.bodies :: WithBodyTopology(t, b)
  {
  }

  lemma EdgesOfFacesIsBodyEdges(t: Tables, b: BodyHandle)
    requires b in t.bodies
    ensures EdgesOfFaces(t.faces, t.bodies[b].faces) == BodyEdges(t, b)
  {
  }

  /** What a throw from the body phase leaves is a partial derivation. */
  lemma PartialAfterThrow(t: Tables, r: map<BodyHandle, BodyData>, done: set<BodyHandle>, todo: set<BodyHandle>,
                          b: BodyHandle, d': BodyData)
    requires BodyPhase(t, r, done, todo) && b in todo
    requires !BodyResolves(t, b)
    requires d' == t.bodies[b] || ((forall f :: f in t.bodies[b].faces ==> f in t.faces) && d' == WithBodyEdges(t, b))
    ensures !BodiesResolve(t) && PartialBodies(t, r[b := d'])
  {
    var r' := r[b := d'];
    forall x | x in t.bodies
      ensures var d, dx := t.bodies[x], r'[x];
        && dx.faces == d.faces && dx.shells == d.shells
        && (dx.edges == d.edges || ((forall f :: f in d.faces ==> f in t.faces) && dx.edges == WithBodyEdges(t, x).edges))
        && (dx.vertices == d.vertices || (BodyResolves(t, x) && dx == WithBodyTopology(t, x)))
    {
      if x != b {
        assert x in done || x in todo;
      }
    }
  }

  lemma VertexPhaseSet(t: Tables, v: VertexHandle)
    ensures IncidentAmong(t.edges, t.edges.Keys, v) == IncidentEdges(t, v)
  {
  }

  lemma VertexPhase(t: Tables, vs: map<VertexHandle, VertexData>, ve: map<VertexHandle, set<EdgeHandle>>)
    requires forall v :: Lookup(ve, v) == IncidentAmong(t.edges, t.edges.Keys, v)
    requires forall v :: v in vs <==> v in t.vertices
    requires forall v :: v in t.vertices ==> vs[v] == t.vertices[v].(edges := t.vertices[v].edges + InOrder(Lookup(ve, v)))
    ensures vs == map v | v in t.vertices :: WithEdges(t, v)
  {
    forall v | v in t.vertices ensures vs[v] == WithEdges(t, v) {
      VertexPhaseSet(t, v);
    }
  }

  lemma EdgePhaseSet(t: Tables, e: EdgeHandle)
    ensures AdjacentAmong(t.faces, t.faces.Keys, e) == AdjacentFaces(t, e)
  {
  }

  lemma EdgePhase(t: Tables, es: map<EdgeHandle, EdgeData>, ef: map<EdgeHandle, set<FaceHandle>>)
    requires forall e :: Lookup(ef, e) == AdjacentAmong(t.faces, t.faces.Keys, e)
    requires forall e :: e in es <==> e in t.edges
    requires forall e :: e in t.edges ==> es[e] == t.edges[e].(faces := t.edges[e].faces + InOrder(Lookup(ef, e)))
    ensures es == map e | e in t.edges :: WithFaces(t, e)
  {
    forall e | e in t.edges ensures es[e] == WithFaces(t, e) {
      EdgePhaseSet(t, e);
    }
  }

  lemma FacePhaseSet(t: Tables, f: FaceHandle)
    ensures OwnersAmong(t.bodies, t.bodies.Keys, f) == OwningBodies(t, f)
  {
  }

  lemma FacePhase(t: Tables, fs: map<FaceHandle, FaceData>, fb: map<FaceHandle, set<BodyHandle>>)
    requires forall f :: Lookup(fb, f) == OwnersAmong(t.bodies, t.bodies.Keys, f)
    requires forall f :: f in fs <==> f in t.faces
    requires forall f :: f in t.faces ==> fs[f] == t.faces[f].(bodies := t.faces[f].bodies + InOrder(Lookup(fb, f)))
    ensures fs == map f | f in t.faces :: WithBodies(t, f)
  {
    forall f | f in t.faces ensures fs[f] == WithBodies(t, f) {
      FacePhaseSet(t, f);
    }
  }

  /** After the incidence phases the body phase reads the same faces' edge
      lists, the same endpoints and the same bodies as in the original. */
  lemma BodyPhaseSees(t: Tables, t1: Tables, b: BodyHandle)
    requires SameTopDown(t, t1) && t1.bodies == t.bodies && b in t.bodies
    ensures BodyResolves(t1, b) == BodyResolves(t, b)
    ensures WithBodyEdges(t1, b) == WithBodyEdges(t, b) && WithBodyTopology(t1, b) == WithBodyTopology(t, b)
  {
    SameTopDownSameBodySets(t, t1, b);
  }

  lemma BodyPhaseResolves(t: Tables, t1: Tables)
    requires SameTopDown(t, t1) && t1.bodies == t.bodies
    ensures BodiesResolve(t1) == BodiesResolve(t)
  {
    forall b | b in t.bodies ensures BodyResolves(t1, b) == BodyResolves(t, b) {
      BodyPhaseSees(t, t1, b);
    }
  }

  lemma BodyPhaseResult(t: Tables, t1: Tables)
    requires SameTopDown(t, t1) && t1.bodies == t.bodies
    ensures (map b | b in t1.bodies :: WithBodyTopology(t1, b)) == (map b | b in t.bodies :: WithBodyTopology(t, b))
  {
    forall b | b in t.bodies ensures WithBodyTopology(t1, b) == WithBodyTopology(t, b) {
      BodyPhaseSees(t, t1, b);
    }
  }

  lemma BodyPhasePartial(t: Tables, t1: Tables, r: map<BodyHandle, BodyData>)
    requires SameTopDown(t, t1) && t1.bodies == t.bodies && PartialBodies(t1, r)
    ensures PartialBodies(t, r)
  {
    forall b | b in t.bodies
      ensures BodyResolves(t1, b) == BodyResolves(t, b)
      ensures WithBodyEdges(t1, b) == WithBodyEdges(t, b) && WithBodyTopology(t1, b) == WithBodyTopology(t, b)
    {
      BodyPhaseSees(t, t1, b);
    }
  }

  /** The tables the incidence phases leave. */
  lemma IncidenceTables(t: Tables, t1: Tables)
    requires t1.assemblies == t.assemblies && t1.parts == t.parts && t1.bodies == t.bodies
    requires t1.loops == t.loops && t1.shells == t.shells
    requires t1.vertices == (map v | v in t.vertices :: WithEdges(t, v))
    requires t1.edges == (map e | e in t.edges :: WithFaces(t, e))
    requires t1.faces == (map f | f in t.faces :: WithBodies(t, f))
    ensures t1 == DerivedIncidence(t) && SameTopDown(t, t1)
  {
    IncidenceKeepsTopDown(t);
  }

  /** The first three phases of `buildBottomUpTopology`, each building its
      map and then appending the map's sets to the lists. */
  method DeriveIncidence(t: Tables) returns (t1: Tables)
    ensures t1 == DerivedIncidence(t) && SameTopDown(t, t1)
  {
    var vertices := DeriveVertexEdges(t);
    var edges := DeriveEdgeFaces(t);
    var faces := DeriveFaceBodies(t);
    t1 := t.(vertices := vertices, edges := edges, faces := faces);
    IncidenceTables(t, t1);
  }

  /** The vertex phase: the map built from the edge table, then appended. */
  method DeriveVertexEdges(t: Tables) returns (vertices: map<VertexHandle, VertexData>)
    ensures vertices == map v | v in t.vertices :: WithEdges(t, v)
  {
    var ve := VertexToEdges(t.edges);
    vertices := AppendVertexEdges(t.vertices, ve);
    VertexPhase(t, vertices, ve);
  }

  /** The edge phase: the map built from the face table, then appended. */
  method DeriveEdgeFaces(t: Tables) returns (edges: map<EdgeHandle, EdgeData>)
    ensures edges == map e | e in t.edges :: WithFaces(t, e)
  {
    var ef := EdgesToFaces(t.faces);
    edges := AppendEdgeFaces(t.edges, ef);
    EdgePhase(t, edges, ef);
  }

  /** The face phase: the map built from the body table, then appended. */
  method DeriveFaceBodies(t: Tables) returns (faces: map<FaceHandle, FaceData>)
    ensures faces == map f | f in t.faces :: WithBodies(t, f)
  {
    var fb := FacesToBodies(t.bodies);
    faces := AppendFaceBodies(t.faces, fb);
    FacePhase(t, faces, fb);
  }

  /** Every entry of a face box cache is the box of a known face. */
  ghost predicate FaceCacheOk(s: Store, c: map<FaceHandle, Box>) {
    s.RangesFit() && forall h :: h in c ==> h in s.tables.faces && FaceBoxDefined(s, h) && c[h] == FaceBox(s, h)
  }

  lemma FaceCacheInsert(s: Store, c: map<FaceHandle, Box>, h: FaceHandle)
    requires FaceCacheOk(s, c) && h in s.tables.faces && FaceBoxDefined(s, h)
    ensures FaceCacheOk(s, c[h := FaceBox(s, h)])
  {
  }

  /** Every entry of a edge box cache is the box of a known edge. */
  ghost predicate EdgeCacheOk(s: Store, c: map<EdgeHandle, Box>) {
    s.RangesFit() && forall h :: h in c ==> h in s.tables.edges && EdgeBoxDefined(s, h) && c[h] == EdgeBox(s, h)
  }

  lemma EdgeCacheInsert(s: Store, c: map<EdgeHandle, Box>, h: EdgeHandle)
    requires EdgeCacheOk(s, c) && h in s.tables.edges && EdgeBoxDefined(s, h)
    ensures EdgeCacheOk(s, c[h := EdgeBox(s, h)])
  {
  }

  /** Every entry of a body box cache is the box of a known body. */
  ghost predicate BodyCacheOk(s: Store, c: map<BodyHandle, Box>) {
    s.RangesFit() && forall h :: h in c ==> h in s.tables.bodies && BodyBoxDefined(s, h) && c[h] == BodyBox(s, h)
  }

  lemma BodyCacheInsert(s: Store, c: map<BodyHandle, Box>, h: BodyHandle)
    requires BodyCacheOk(s, c) && h in s.tables.bodies && BodyBoxDefined(s, h)
    ensures BodyCacheOk(s, c[h := BodyBox(s, h)])
  {
  }

  /** Every entry of a part box cache is the box of a known part. */
  ghost predicate PartCacheOk(s: Store, c: map<PartHandle, Box>) {
    s.RangesFit() && forall h :: h in c ==> h in s.tables.parts && PartBoxDefined(s, h) && c[h] == PartBox(s, h)
  }

  lemma PartCacheInsert(s: Store, c: map<PartHandle, Box>, h: PartHandle)
    requires PartCacheOk(s, c) && h in s.tables.parts && PartBoxDefined(s, h)
    ensures PartCacheOk(s, c[h := PartBox(s, h)])
  {
  }

  /** Every entry of a assembly box cache is the box of a known assembly. */
  ghost predicate AssemblyCacheOk(s: Store, c: map<AssemblyHandle, Box>) {
    s.RangesFit() && forall h :: h in c ==> h in s.tables.assemblies && AssemblyBoxDefined(s, h) && c[h] == AssemblyBox(s, h)
  }

  lemma AssemblyCacheInsert(s: Store, c: map<AssemblyHandle, Box>, h: AssemblyHandle)
    requires AssemblyCacheOk(s, c) && h in s.tables.assemblies && AssemblyBoxDefined(s, h)
    ensures AssemblyCacheOk(s, c[h := AssemblyBox(s, h)])
  {
  }

  /** The face branch of `boundingBox(FaceHandle)` on a state and its face
      cache: a hit returns the cached box, an unknown face the empty box, and
      otherwise the box of the point slice is computed and cached. */
  method CachedFaceBox(s: Store, fc: map<FaceHandle, Box>, h: FaceHandle) returns (b: Box, fc': map<FaceHandle, Box>)
    requires FaceCacheOk(s, fc) && FaceBoxDefined(s, h)
    ensures FaceCacheOk(s, fc') && b == FaceBox(s, h)
    ensures fc' == if h in s.tables.faces then fc[h := b] else fc
  {
    if h in fc {
      b, fc' := fc[h], fc;
      assert fc[h := b] == fc;
      return;
    }
    if h !in s.tables.faces {
      return Empty, fc;
    }
    var g := s.FaceGeometry(h);
    var lo := ColwiseMin(g.0);
    var hi := ColwiseMax(g.0);
    b := Box(lo, hi);
    FaceCacheInsert(s, fc, h);
    fc' := fc[h := b];
  }

  /** `boundingBox(EdgeHandle)` on a state and its edge cache. */
  method CachedEdgeBox(s: Store, ec: map<EdgeHandle, Box>, h: EdgeHandle) returns (b: Box, ec': map<EdgeHandle, Box>)
    requires EdgeCacheOk(s, ec) && EdgeBoxDefined(s, h)
    ensures EdgeCacheOk(s, ec') && b == EdgeBox(s, h)
    ensures ec' == if h in s.tables.edges then ec[h := b] else ec
  {
    if h in ec {
      b, ec' := ec[h], ec;
      assert ec[h := b] == ec;
      return;
    }
    if h !in s.tables.edges {
      return Empty, ec;
    }
    var g := s.EdgeGeometry(h);
    var lo := ColwiseMin(g);
    var hi := ColwiseMax(g);
    b := Box(lo, hi);
    EdgeCacheInsert(s, ec, h);
    ec' := ec[h := b];
  }

  /** The `std::transform` of a body's faces into their boxes, threading the
      face cache; entries are only ever added. */
  method CachedFaceBoxes(s: Store, fc: map<FaceHandle, Box>, fs: seq<FaceHandle>)
    returns (boxes: seq<Box>, fc': map<FaceHandle, Box>)
    requires FaceCacheOk(s, fc) && forall f :: f in fs ==> FaceBoxDefined(s, f)
    ensures FaceCacheOk(s, fc') && boxes == FaceBoxes(s, fs)
    ensures fc.Keys <= fc'.Keys
  {
    boxes, fc' := [], fc;
    for k := 0 to |fs|
      invariant FaceCacheOk(s, fc') && fc.Keys <= fc'.Keys
      invariant boxes == FaceBoxes(s, fs[..k])
    {
      assert fs[..k + 1][..k] == fs[..k];
      var fb;
      fb, fc' := CachedFaceBox(s, fc', fs[k]);
      boxes := boxes + [fb];
    }
    assert fs[..|fs|] == fs;
  }

  /** `boundingBox(BodyHandle)` on a state and its face and body caches: the
      faces' boxes folded with `extend`, then cached. */
  method CachedBodyBox(s: Store, fc: map<FaceHandle, Box>, bc: map<BodyHandle, Box>, h: BodyHandle)
    returns (b: Box, fc': map<FaceHandle, Box>, bc': map<BodyHandle, Box>)
    requires FaceCacheOk(s, fc) && BodyCacheOk(s, bc) && BodyBoxDefined(s, h)
    ensures FaceCacheOk(s, fc') && BodyCacheOk(s, bc') && b == BodyBox(s, h)
    ensures bc' == if h in s.tables.bodies then bc[h := b] else bc
    ensures fc.Keys <= fc'.Keys
  {
    if h in bc {
      b, fc', bc' := bc[h], fc, bc;
      assert bc[h := b] == bc;
      return;
    }
    if h !in s.tables.bodies {
      return Empty, fc, bc;
    }
    var boxes;
    boxes, fc' := CachedFaceBoxes(s, fc, s.tables.bodies[h].faces);
    b := Accumulate(boxes);
    BodyCacheInsert(s, bc, h);
    bc' := bc[h := b];
  }

  /** The `std::transform` of a part's bodies into their boxes. */
  method CachedBodyBoxes(s: Store, fc: map<FaceHandle, Box>, bc: map<BodyHandle, Box>, bs: seq<BodyHandle>)
    returns (boxes: seq<Box>, fc': map<FaceHandle, Box>, bc': map<BodyHandle, Box>)
    requires FaceCacheOk(s, fc) && BodyCacheOk(s, bc) && forall b :: b in bs ==> BodyBoxDefined(s, b)
    ensures FaceCacheOk(s, fc') && BodyCacheOk(s, bc') && boxes == BodyBoxes(s, bs)
    ensures fc.Keys <= fc'.Keys && bc.Keys <= bc'.Keys
  {
    boxes, fc', bc' := [], fc, bc;
    for k := 0 to |bs|
      invariant FaceCacheOk(s, fc') && BodyCacheOk(s, bc')
      invariant fc.Keys <= fc'.Keys && bc.Keys <= bc'.Keys
      invariant boxes == BodyBoxes(s, bs[..k])
    {
      assert bs[..k + 1][..k] == bs[..k];
      var bb;
      bb, fc', bc' := CachedBodyBox(s, fc', bc', bs[k]);
      boxes := boxes + [bb];
    }
    assert bs[..|bs|] == bs;
  }

  /** `boundingBox(PartHandle)`: the bodies' boxes folded with `extend`. */
  method CachedPartBox(s: Store, fc: map<FaceHandle, Box>, bc: map<BodyHandle, Box>, pc: map<PartHandle, Box>,
                       h: PartHandle)
    returns (b: Box, fc': map<FaceHandle, Box>, bc': map<BodyHandle, Box>, pc': map<PartHandle, Box>)
    requires FaceCacheOk(s, fc) && BodyCacheOk(s, bc) && PartCacheOk(s, pc) && PartBoxDefined(s, h)
    ensures FaceCacheOk(s, fc') && BodyCacheOk(s, bc') && PartCacheOk(s, pc') && b == PartBox(s, h)
    ensures pc' == if h in s.tables.parts then pc[h := b] else pc
    ensures fc.Keys <= fc'.Keys && bc.Keys <= bc'.Keys
  {
    if h in pc {
      b, fc', bc', pc' := pc[h], fc, bc, pc;
      assert pc[h := b] == pc;
      return;
    }
    if h !in s.tables.parts {
      return Empty, fc, bc, pc;
    }
    var boxes;
    boxes, fc', bc' := CachedBodyBoxes(s, fc, bc, s.tables.parts[h].bodies);
    b := Accumulate(boxes);
    PartCacheInsert(s, pc, h);
    pc' := pc[h := b];
  }

  /** The `std::transform` of an assembly's parts into their boxes. */
  method CachedPartBoxes(s: Store, fc: map<FaceHandle, Box>, bc: map<BodyHandle, Box>, pc: map<PartHandle, Box>,
                         ps: seq<PartHandle>)
    returns (boxes: seq<Box>, fc': map<FaceHandle, Box>, bc': map<BodyHandle, Box>, pc': map<PartHandle, Box>)
    requires FaceCacheOk(s, fc) && BodyCacheOk(s, bc) && PartCacheOk(s, pc)
    requires forall p :: p in ps ==> PartBoxDefined(s, p)
    ensures FaceCacheOk(s, fc') && BodyCacheOk(s, bc') && PartCacheOk(s, pc') && boxes == PartBoxes(s, ps)
    ensures fc.Keys <= fc'.Keys && bc.Keys <= bc'.Keys && pc.Keys <= pc'.Keys
  {
    boxes, fc', bc', pc' := [], fc, bc, pc;
    for k := 0 to |ps|
      invariant FaceCacheOk(s, fc') && BodyCacheOk(s, bc') && PartCacheOk(s, pc')
      invariant fc.Keys <= fc'.Keys && bc.Keys <= bc'.Keys && pc.Keys <= pc'.Keys
      invariant boxes == PartBoxes(s, ps[..k])
    {
      assert ps[..k + 1][..k] == ps[..k];
      var pb;
      pb, fc', bc', pc' := CachedPartBox(s, fc', bc', pc', ps[k]);
      boxes := boxes + [pb];
    }
    assert ps[..|ps|] == ps;
  }

  /** `boundingBox(AssemblyHandle)`: the parts' boxes folded with `extend`. */
  method CachedAssemblyBox(s: Store, fc: map<FaceHandle, Box>, bc: map<BodyHandle, Box>, pc: map<PartHandle, Box>,
                           ac: map<AssemblyHandle, Box>, h: AssemblyHandle)
    returns (b: Box, fc': map<FaceHandle, Box>, bc': map<BodyHandle, Box>, pc': map<PartHandle, Box>,
             ac': map<AssemblyHandle, Box>)
    requires FaceCacheOk(s, fc) && BodyCacheOk(s, bc) && PartCacheOk(s, pc) && AssemblyCacheOk(s, ac)
    requires AssemblyBoxDefined(s, h)
    ensures FaceCacheOk(s, fc') && BodyCacheOk(s, bc') && PartCacheOk(s, pc') && AssemblyCacheOk(s, ac')
    ensures b == AssemblyBox(s, h)
    ensures ac' == if h in s.tables.assemblies then ac[h := b] else ac
    ensures fc.Keys <= fc'.Keys && bc.Keys <= bc'.Keys && pc.Keys <= pc'.Keys
  {
    if h in ac {
      b, fc', bc', pc', ac' := ac[h], fc, bc, pc, ac;
      assert ac[h := b] == ac;
      return;
    }
    if h !in s.tables.assemblies {
      return Empty, fc, bc, pc, ac;
    }
    var boxes;
    boxes, fc', bc', pc' := CachedPartBoxes(s, fc, bc, pc, s.tables.assemblies[h].parts);
    b := Accumulate(boxes);
    AssemblyCacheInsert(s, ac, h);
    ac' := ac[h := b];
  }


  /** Whatever the derivation pass of `buildBRepFromEntityStream` ends with,
      the store it leaves is well formed. */
  lemma BuiltStoreWellFormed(a: Arrays, es: seq<BRepEntity>, t: Tables)
    requires var s := Ingested(a, es).0; t == Derived(s.tables) || PartiallyDerived(s.tables, t)
    ensures Ingested(a, es).0.(tables := t).WellFormed()
  {
    IngestKeepsWellFormed(Prepared(a, es), es);
    DerivationKeepsWellFormed(Ingested(a, es).0, t);
  }

  class BRep {
    var assemblies: map<AssemblyHandle, AssemblyData>
    var parts: map<PartHandle, PartData>
    var bodies: map<BodyHandle, BodyData>
    var faces: map<FaceHandle, FaceData>
    var edges: map<EdgeHandle, EdgeData>
    var vertices: map<VertexHandle, VertexData>
    var loops: map<LoopHandle, LoopData>
    var shells: map<ShellHandle, ShellData>

    var points: seq<Point>
    var facets: seq<Triangle>
    var faceParams: seq<SurfaceParam>
    var edgeParams: seq<real>

    var generatedHandleId: int

    var assemblyBoxCache: map<AssemblyHandle, Box>
    var partBoxCache: map<PartHandle, Box>
    var bodyBoxCache: map<BodyHandle, Box>
    var faceBoxCache: map<FaceHandle, Box>
    var edgeBoxCache: map<EdgeHandle, Box>

    function Topology(): Tables
      reads this`assemblies, this`parts, this`bodies, this`faces, this`edges, this`vertices, this`loops, this`shells
    {
      Tables(assemblies, parts, bodies, faces, edges, vertices, loops, shells)
    }

    function Rows(): Arrays
      reads this`points, this`facets, this`faceParams, this`edgeParams
    {
      Arrays(points, facets, faceParams, edgeParams)
    }

    /** The store's state as a value; the caches are not part of it. */
    function Model(): Store
      reads this`assemblies, this`parts, this`bodies, this`faces, this`edges, this`vertices, this`loops, this`shells
      reads this`points, this`facets, this`faceParams, this`edgeParams, this`generatedHandleId
    {
      Store(Topology(), Rows(), generatedHandleId)
    }

    predicate CachesEmpty()
      reads this`assemblyBoxCache, this`partBoxCache, this`bodyBoxCache, this`faceBoxCache, this`edgeBoxCache
    {
      && assemblyBoxCache == map[] && partBoxCache == map[] && bodyBoxCache == map[]
      && faceBoxCache == map[] && edgeBoxCache == map[]
    }

    /** Every cached box is the box of a known handle, as the current state
        gives it. */
    ghost predicate CachesCoherent()
      reads this
    {
      Model().RangesFit() && FaceCacheCoherent() && EdgeCacheCoherent() && BodyCacheCoherent()
      && PartCacheCoherent() && AssemblyCacheCoherent()
    }

    ghost predicate FaceCacheCoherent()
      reads this`assemblies, this`parts, this`bodies, this`faces, this`edges, this`vertices, this`loops, this`shells,
               this`points, this`facets, this`faceParams, this`edgeParams, this`generatedHandleId, this`faceBoxCache
    {
      FaceCacheOk(Model(), faceBoxCache)
    }

    ghost predicate EdgeCacheCoherent()
      reads this`assemblies, this`parts, this`bodies, this`faces, this`edges, this`vertices, this`loops, this`shells,
               this`points, this`facets, this`faceParams, this`edgeParams, this`generatedHandleId, this`edgeBoxCache
    {
      EdgeCacheOk(Model(), edgeBoxCache)
    }

    ghost predicate BodyCacheCoherent()
      reads this`assemblies, this`parts, this`bodies, this`faces, this`edges, this`vertices, this`loops, this`shells,
               this`points, this`facets, this`faceParams, this`edgeParams, this`generatedHandleId, this`bodyBoxCache
    {
      BodyCacheOk(Model(), bodyBoxCache)
    }

    ghost predicate PartCacheCoherent()
      reads this`assemblies, this`parts, this`bodies, this`faces, this`edges, this`vertices, this`loops, this`shells,
               this`points, this`facets, this`faceParams, this`edgeParams, this`generatedHandleId, this`partBoxCache
    {
      PartCacheOk(Model(), partBoxCache)
    }

    ghost predicate AssemblyCacheCoherent()
      reads this`assemblies, this`parts, this`bodies, this`faces, this`edges, this`vertices, this`loops, this`shells,
               this`points, this`facets, this`faceParams, this`edgeParams, this`generatedHandleId, this`assemblyBoxCache
    {
      AssemblyCacheOk(Model(), assemblyBoxCache)
    }

    ghost predicate Valid()
      reads this
    {
      Model().WellFormed() && CachesCoherent()
    }

    /** `BRep() = default`: empty tables, arrays and caches. The counter is an
        uninitialised `int` there, so nothing is promised about it. */
    constructor ()
      ensures Topology() == EmptyTables && Rows() == EmptyArrays && CachesEmpty()
      ensures Valid()
    {
      assemblies, parts, bodies, faces := map[], map[], map[], map[];
      edges, vertices, loops, shells := map[], map[], map[], map[];
      points, facets, faceParams, edgeParams := [], [], [], [];
      assemblyBoxCache, partBoxCache, bodyBoxCache, faceBoxCache, edgeBoxCache := map[], map[], map[], map[], map[];
    }

    /** `reset`: clears the eight tables and the five caches; the geometry
        arrays and the counter are left as they are. */
    method Reset()
      modifies this`assemblies, this`parts, this`bodies, this`faces, this`edges, this`vertices, this`loops, this`shells
      modifies this`assemblyBoxCache, this`partBoxCache, this`bodyBoxCache, this`faceBoxCache, this`edgeBoxCache
      ensures Topology() == EmptyTables && CachesEmpty()
      ensures Rows() == old(Rows()) && generatedHandleId == old(generatedHandleId)
    {
      ClearTables();
      ClearCaches();
    }

    method ClearTables()
      modifies this`assemblies, this`parts, this`bodies, this`faces, this`edges, this`vertices, this`loops, this`shells
      ensures Topology() == EmptyTables
    {
      assemblies, parts, bodies, faces := map[], map[], map[], map[];
      edges, vertices, loops, shells := map[], map[], map[], map[];
    }

    method ClearCaches()
      modifies this`assemblyBoxCache, this`partBoxCache, this`bodyBoxCache, this`faceBoxCache, this`edgeBoxCache
      ensures CachesEmpty()
    {
      assemblyBoxCache, partBoxCache, bodyBoxCache, faceBoxCache, edgeBoxCache := map[], map[], map[], map[], map[];
    }

    /** `resetGeneratedHandleId`: one past the largest identifier of a known
        record, or 0 when there is none. */
    method ResetGeneratedHandleId(es: seq<BRepEntity>)
      modifies this`generatedHandleId
      ensures generatedHandleId == MaxKnownId(es) + 1
    {
      var id := -1;
      for i := 0 to |es|
        invariant id == MaxKnownId(es[..i])
      {
        assert es[..i + 1][..i] == es[..i];
        var e := es[i];
        if e.IsKnown() {
          id := if id < e.Id() then e.Id() else id;
        }
      }
      assert es[..|es|] == es;
      generatedHandleId := id + 1;
    }

    method GenerateNewLoopHandle() returns (h: LoopHandle)
      modifies this`generatedHandleId
      ensures generatedHandleId == old(generatedHandleId) + 1 && h.idx == generatedHandleId
    {
      generatedHandleId := generatedHandleId + 1;
      h := Handle(generatedHandleId);
    }

    method GenerateNewShellHandle() returns (h: ShellHandle)
      modifies this`generatedHandleId
      ensures generatedHandleId == old(generatedHandleId) + 1 && h.idx == generatedHandleId
    {
      generatedHandleId := generatedHandleId + 1;
      h := Handle(generatedHandleId);
    }

    method GenerateNewAssemblyHandle() returns (h: AssemblyHandle)
      modifies this`generatedHandleId
      ensures generatedHandleId == old(generatedHandleId) + 1 && h.idx == generatedHandleId
    {
      generatedHandleId := generatedHandleId + 1;
      h := Handle(generatedHandleId);
    }

    method AddAssembly(a: Assembly) returns (ok: bool)
      modifies this`assemblies
      ensures Model() == BRepModel.AddAssembly(old(Model()), a) && ok
    {
      assemblies := assemblies[Handle(a.id) := AssemblyData(ToHandles(a.parts))];
      ok := true;
    }

    method AddPart(p: Part) returns (ok: bool)
      modifies this`parts
      ensures Model() == BRepModel.AddPart(old(Model()), p) && ok
    {
      parts := parts[Handle(p.id) := PartData(ToHandles(p.bodies))];
      ok := true;
    }

    /** Each shell's face list is built and then dropped: nothing reaches the
        shell table or the body's shell list. */
    method AddBody(b: Body) returns (ok: bool)
      modifies this`bodies
      ensures Model() == BRepModel.AddBody(old(Model()), b) && ok
    {
      var data := BodyData(ToHandles(b.faces), [], [], []);
      for k := 0 to |b.shells| {
        var shellData := ShellData(ToHandles(b.shells[k].faces));
      }
      bodies := bodies[Handle(b.id) := data];
      ok := true;
    }

    /** `conservativeResize` of the point array by `|rows|`, then the row
        counter loop that writes them. The new rows' contents are unspecified
        until the loop overwrites each of them. */
    method AppendPoints(rows: seq<Point>)
      modifies this`points
      ensures points == old(points) + rows
    {
      var start := |points|;
      points := points + seq(|rows|, _ => Point(0.0, 0.0, 0.0));
      var row := start;
      for k := 0 to |rows|
        invariant |points| == start + |rows| && row == start + k
        invariant points[..row] == old(points) + rows[..k]
      {
        points := points[row := rows[k]];
        row := row + 1;
      }
      assert points == points[..row];
    }

    method AppendFacets(rows: seq<Triangle>)
      modifies this`facets
      ensures facets == old(facets) + rows
    {
      var start := |facets|;
      facets := facets + seq(|rows|, _ => Triangle(0, 0, 0));
      var row := start;
      for k := 0 to |rows|
        invariant |facets| == start + |rows| && row == start + k
        invariant facets[..row] == old(facets) + rows[..k]
      {
        facets := facets[row := rows[k]];
        row := row + 1;
      }
      assert facets == facets[..row];
    }

    method AppendFaceParams(rows: seq<SurfaceParam>)
      modifies this`faceParams
      ensures faceParams == old(faceParams) + rows
    {
      var start := |faceParams|;
      faceParams := faceParams + seq(|rows|, _ => SurfaceParam(0.0, 0.0));
      var row := start;
      for k := 0 to |rows|
        invariant |faceParams| == start + |rows| && row == start + k
        invariant faceParams[..row] == old(faceParams) + rows[..k]
      {
        faceParams := faceParams[row := rows[k]];
        row := row + 1;
      }
      assert faceParams == faceParams[..row];
    }

    method AppendEdgeParams(rows: seq<real>)
      modifies this`edgeParams
      ensures edgeParams == old(edgeParams) + rows
    {
      var start := |edgeParams|;
      edgeParams := edgeParams + seq(|rows|, _ => 0.0);
      var row := start;
      for k := 0 to |rows|
        invariant |edgeParams| == start + |rows| && row == start + k
        invariant edgeParams[..row] == old(edgeParams) + rows[..k]
      {
        edgeParams := edgeParams[row := rows[k]];
        row := row + 1;
      }
      assert edgeParams == edgeParams[..row];
    }

    /** The loop part of `addFace`: one fresh handle per loop, in order. */
    method AddFaceLoops(ls: seq<Loop>) returns (dataLoops: seq<LoopHandle>)
      modifies this`loops, this`generatedHandleId
      ensures generatedHandleId == old(generatedHandleId) + |ls|
      ensures dataLoops == LoopRun(old(generatedHandleId), |ls|)
      ensures loops == AddLoops(old(loops), old(generatedHandleId), ls)
    {
      dataLoops := [];
      var c0 := generatedHandleId;
      for k := 0 to |ls|
        invariant generatedHandleId == c0 + k
        invariant dataLoops == LoopRun(c0, k)
        invariant loops == AddLoops(old(loops), c0, ls[..k])
      {
        assert ls[..k + 1][..k] == ls[..k];
        var loopData := LoopData(ToHandles(ls[k].edges));
        var lh := GenerateNewLoopHandle();
        dataLoops := dataLoops + [lh];
        loops := loops[lh := loopData];
      }
      assert ls[..|ls|] == ls;
    }

    /** `addFace`: appends the surface rows, makes one fresh loop handle per
        loop, and stores the face with the old row counts as its starts. */
    method AddFace(f: Face) returns (ok: bool)
      modifies this`faces, this`loops, this`points, this`facets, this`faceParams, this`generatedHandleId
      ensures Model() == BRepModel.AddFace(old(Model()), f) && ok
    {
      ghost var s0 := Model();
      var data := NewFace(f);
      faces := faces[Handle(f.id) := data];
      ok := true;
      assert Topology() == s0.tables.(faces := s0.tables.faces[Handle(f.id) := NewFaceData(s0.arrays, s0.counter, f)],
                                      loops := AddLoops(s0.tables.loops, s0.counter, f.loops));
    }

    /** Everything `addFace` does before the face itself is inserted: the
        surface rows are appended and the loops stored. */
    method NewFace(f: Face) returns (data: FaceData)
      modifies this`loops, this`points, this`facets, this`faceParams, this`generatedHandleId
      ensures data == NewFaceData(old(Rows()), old(generatedHandleId), f)
      ensures loops == AddLoops(old(loops), old(generatedHandleId), f.loops)
      ensures generatedHandleId == old(generatedHandleId) + |f.loops|
      ensures Rows() == old(Rows()).(points := old(points) + f.surface.points,
                                     facets := old(facets) + f.surface.triangles,
                                     faceParams := old(faceParams) + f.surface.parameters)
    {
      var sf := f.surface;
      var pointStart, facetStart, paramStart := |points|, |facets|, |faceParams|;
      AppendPoints(sf.points);
      AppendFacets(sf.triangles);
      AppendFaceParams(sf.parameters);
      var dataEdges: seq<EdgeHandle> := ToHandles(f.edges);
      var dataLoops := AddFaceLoops(f.loops);
      data := FaceData(dataEdges, dataLoops, [], pointStart, |sf.points|,
                       facetStart, |sf.triangles|, paramStart, |sf.parameters|);
    }

    /** `addEdge`: appends the curve rows and stores the edge, an endpoint
        below 0 becoming the invalid handle. */
    method AddEdge(ed: Edge) returns (ok: bool)
      modifies this`edges, this`points, this`edgeParams
      ensures Model() == BRepModel.AddEdge(old(Model()), ed) && ok
    {
      var pointStart, paramStart := |points|, |edgeParams|;
      AppendPoints(ed.curve.points);
      AppendEdgeParams(ed.curve.parameters);
      var startVertex: VertexHandle := if ed.start >= 0 then Handle(ed.start) else Invalid();
      var endVertex: VertexHandle := if ed.end >= 0 then Handle(ed.end) else Invalid();
      edges := edges[Handle(ed.id) := EdgeData(startVertex, endVertex, [], pointStart, |ed.curve.points|,
                                               paramStart, |ed.curve.parameters|)];
      ok := true;
    }

    /** `addVertex`: appends one point row and stores its index. */
    method AddVertex(v: Vertex) returns (ok: bool)
      modifies this`vertices, this`points
      ensures Model() == BRepModel.AddVertex(old(Model()), v) && ok
    {
      var pointIndex := |points|;
      points := points + [Point(0.0, 0.0, 0.0)];
      points := points[pointIndex := v.point];
      vertices := vertices[Handle(v.id) := VertexData(pointIndex, [])];
      ok := true;
    }

    /** `addBRepEntity`: dispatch on the record's kind. */
    method AddBRepEntity(e: BRepEntity) returns (ok: bool)
      modifies this`assemblies, this`parts, this`bodies, this`faces, this`edges, this`vertices, this`loops
      modifies this`points, this`facets, this`faceParams, this`edgeParams, this`generatedHandleId
      ensures (Model(), ok) == AddRecord(old(Model()), e)
    {
      match e
      case AssemblyEntity(a) => ok := AddAssembly(a);
      case PartEntity(p) => ok := AddPart(p);
      case BodyEntity(b) => ok := AddBody(b);
      case FaceEntity(f) => ok := AddFace(f);
      case EdgeEntity(ed) => ok := AddEdge(ed);
      case VertexEntity(v) => ok := AddVertex(v);
      case UnknownEntity => ok := false;
    }


    /** `buildBottomUpTopology`: the four derivation phases in the source's
        order. When a body's face or edge is missing, the `at` lookup throws and
        the store keeps the lists derived so far. */
    method BuildBottomUpTopology() returns (outcome: BuildOutcome)
      modifies this`vertices, this`edges, this`faces, this`bodies
      ensures outcome == OutOfRange <==> !BodiesResolve(old(Topology()))
      ensures outcome.Returned? ==> outcome.success && Topology() == Derived(old(Topology()))
      ensures outcome.OutOfRange? ==> PartiallyDerived(old(Topology()), Topology())
    {
      ghost var t0 := Topology();
      var t1 := DeriveIncidence(Topology());
      vertices, edges, faces := t1.vertices, t1.edges, t1.faces;
      var bodies';
      outcome, bodies' := DeriveBodyLists(t1);
      BodyPhaseResolves(t0, t1);
      if outcome.Returned? {
        BodyPhaseResult(t0, t1);
      } else {
        BodyPhasePartial(t0, t1, bodies');
      }
      bodies := bodies';
    }

    /** `buildBRepFromEntityStream`: reset, reseed the counter, add every
        record in stream order AND-ing the results, then derive. */
    method BuildFromEntityStream(es: seq<BRepEntity>) returns (outcome: BuildOutcome)
      modifies this
      ensures var (s, ok) := Ingested(old(Rows()), es);
        && Rows() == s.arrays && generatedHandleId == s.counter
        && (outcome == OutOfRange <==> !BodiesResolve(s.tables))
        && (outcome.Returned? ==> outcome.success == ok && Topology() == Derived(s.tables))
        && (outcome.OutOfRange? ==> PartiallyDerived(s.tables, Topology()))
      ensures CachesEmpty() && Valid()
    {
      var success := Populate(es);
      var derived := BuildBottomUpTopology();
      outcome := if derived.Returned? then Returned(success && derived.success) else OutOfRange;
      BuiltValid(old(Rows()), es);
    }

    /** The populating pass of `buildBRepFromEntityStream`: `reset`,
        `resetGeneratedHandleId`, then every record in stream order. */
    method Populate(es: seq<BRepEntity>) returns (success: bool)
      modifies this
      ensures (Model(), success) == Ingested(old(Rows()), es) && CachesEmpty()
    {
      Reset();
      ResetGeneratedHandleId(es);
      assert Model() == Prepared(old(Rows()), es);
      success := IngestStream(es);
    }

    /** The store `buildBRepFromEntityStream` leaves is valid, whichever way
        the derivation ends. */
    lemma BuiltValid(a: Arrays, es: seq<BRepEntity>)
      requires var s := Ingested(a, es).0;
        && Rows() == s.arrays && generatedHandleId == s.counter && CachesEmpty()
        && (Topology() == Derived(s.tables) || PartiallyDerived(s.tables, Topology()))
      ensures Valid()
    {
      BuiltStoreWellFormed(a, es, Topology());
      assert Model() == Ingested(a, es).0.(tables := Topology());
      EmptyCachesValid();
    }

    /** The loop of `buildBRepFromEntityStream`: every record is added in
        stream order and the results are AND-ed. */
    method IngestStream(es: seq<BRepEntity>) returns (success: bool)
      modifies this`assemblies, this`parts, this`bodies, this`faces, this`edges, this`vertices, this`loops
      modifies this`points, this`facets, this`faceParams, this`edgeParams, this`generatedHandleId
      ensures (Model(), success) == IngestAll(old(Model()), es)
    {
      success := true;
      for i := 0 to |es|
        invariant (Model(), success) == IngestAll(old(Model()), es[..i])
      {
        assert es[..i + 1][..i] == es[..i];
        var ok := AddBRepEntity(es[i]);
        success := success && ok;
      }
      assert es[..|es|] == es;
    }

    /** With the caches empty, a well-formed store is valid. */
    lemma EmptyCachesValid()
      requires CachesEmpty() && Model().WellFormed()
      ensures Valid()
    {
    }

    /** `boundingBox(FaceHandle)`: a cached box, the empty box for an unknown
        face, or the box of the face's points, which is then cached. Only the
        face cache changes, so the store's state is `old(Model())` throughout. */
    method FaceBoundingBox(h: FaceHandle) returns (b: Box)
      requires Valid() && FaceBoxDefined(Model(), h)
      modifies this`faceBoxCache
      ensures Valid()
      ensures FaceCacheOk(old(Model()), faceBoxCache) && b == FaceBox(old(Model()), h)
      ensures faceBoxCache == if h in old(faces) then old(faceBoxCache)[h := b] else old(faceBoxCache)
    {
      b, faceBoxCache := CachedFaceBox(Model(), faceBoxCache, h);
    }

    /** `boundingBox(EdgeHandle)`, as for faces on the edge's points. */
    method EdgeBoundingBox(h: EdgeHandle) returns (b: Box)
      requires Valid() && EdgeBoxDefined(Model(), h)
      modifies this`edgeBoxCache
      ensures Valid()
      ensures EdgeCacheOk(old(Model()), edgeBoxCache) && b == EdgeBox(old(Model()), h)
      ensures edgeBoxCache == if h in old(edges) then old(edgeBoxCache)[h := b] else old(edgeBoxCache)
    {
      b, edgeBoxCache := CachedEdgeBox(Model(), edgeBoxCache, h);
    }

    /** `boundingBox(BodyHandle)`: the faces' boxes, each through the face
        cache, folded with `extend`; the result is cached. */
    method BodyBoundingBox(h: BodyHandle) returns (b: Box)
      requires Valid() && BodyBoxDefined(Model(), h)
      modifies this`faceBoxCache, this`bodyBoxCache
      ensures Valid()
      ensures FaceCacheOk(old(Model()), faceBoxCache) && BodyCacheOk(old(Model()), bodyBoxCache)
      ensures b == BodyBox(old(Model()), h)
      ensures bodyBoxCache == if h in old(bodies) then old(bodyBoxCache)[h := b] else old(bodyBoxCache)
      ensures old(faceBoxCache).Keys <= faceBoxCache.Keys
    {
      b, faceBoxCache, bodyBoxCache := CachedBodyBox(Model(), faceBoxCache, bodyBoxCache, h);
    }

    /** `boundingBox(PartHandle)`: the bodies' boxes folded with `extend`. */
    method PartBoundingBox(h: PartHandle) returns (b: Box)
      requires Valid() && PartBoxDefined(Model(), h)
      modifies this`faceBoxCache, this`bodyBoxCache, this`partBoxCache
      ensures Valid()
      ensures FaceCacheOk(old(Model()), faceBoxCache) && BodyCacheOk(old(Model()), bodyBoxCache)
      ensures PartCacheOk(old(Model()), partBoxCache) && b == PartBox(old(Model()), h)
      ensures partBoxCache == if h in old(parts) then old(partBoxCache)[h := b] else old(partBoxCache)
      ensures old(faceBoxCache).Keys <= faceBoxCache.Keys && old(bodyBoxCache).Keys <= bodyBoxCache.Keys
    {
      b, faceBoxCache, bodyBoxCache, partBoxCache :=
        CachedPartBox(Model(), faceBoxCache, bodyBoxCache, partBoxCache, h);
    }

    /** `boundingBox(AssemblyHandle)`: the parts' boxes folded with `extend`. */
    method AssemblyBoundingBox(h: AssemblyHandle) returns (b: Box)
      requires FaceCacheCoherent() && BodyCacheCoherent() && PartCacheCoherent() && AssemblyCacheCoherent()
      requires AssemblyBoxDefined(Model(), h)
      modifies this`faceBoxCache, this`bodyBoxCache, this`partBoxCache, this`assemblyBoxCache
      ensures FaceCacheOk(old(Model()), faceBoxCache) && BodyCacheOk(old(Model()), bodyBoxCache)
      ensures PartCacheOk(old(Model()), partBoxCache) && AssemblyCacheOk(old(Model()), assemblyBoxCache)
      ensures b == AssemblyBox(old(Model()), h)
      ensures assemblyBoxCache == if h in old(assemblies) then old(assemblyBoxCache)[h := b] else old(assemblyBoxCache)
      ensures old(faceBoxCache).Keys <= faceBoxCache.Keys && old(bodyBoxCache).Keys <= bodyBoxCache.Keys
      ensures old(partBoxCache).Keys <= partBoxCache.Keys
    {
      b, faceBoxCache, bodyBoxCache, partBoxCache, assemblyBoxCache :=
        CachedAssemblyBox(Model(), faceBoxCache, bodyBoxCache, partBoxCache, assemblyBoxCache, h);
    }
  }
}
