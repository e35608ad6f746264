/** The bottom-up relationships the store derives once every record is in:
    vertex to incident edges, edge to adjacent faces, face to owning bodies,
    and body to its edges and vertices. Each derived list is the ascending
    listing of a set, appended to whatever the list already held. */
module Derivation {
  import opened Handles
  import opened BRepModel
  import opened HandleSets

  /** The valid endpoints of an edge. */
  function Endpoints(d: EdgeData): (vs: set<VertexHandle>)
    ensures forall v :: v in vs <==> v.IsValid() && (v == d.startVertex || v == d.endVertex)
  {
    (if d.startVertex.IsValid() then {d.startVertex} else {}) + (if d.endVertex.IsValid() then {d.endVertex} else {})
  }

  /** The table edges having `v` as a valid endpoint. */
  ghost function IncidentEdges(t: Tables, v: VertexHandle): set<EdgeHandle> {
    set e | e in t.edges && v in Endpoints(t.edges[e])
  }

  /** The table faces listing edge `e`. */
  ghost function AdjacentFaces(t: Tables, e: EdgeHandle): set<FaceHandle> {
    set f | f in t.faces && e in t.faces[f].edges
  }

  /** The table bodies listing face `f`. */
  ghost function OwningBodies(t: Tables, f: FaceHandle): set<BodyHandle> {
    set b | b in t.bodies && f in t.bodies[b].faces
  }

  /** The edges listed by the faces of body `b` that are in the table. */
  ghost function BodyEdges(t: Tables, b: BodyHandle): set<EdgeHandle>
    requires b in t.bodies
  {
    set f, e | f in t.bodies[b].faces && f in t.faces && e in t.faces[f].edges :: e
  }

  /** The valid endpoints of the body's edges that are in the table. */
  ghost function BodyVertices(t: Tables, b: BodyHandle): set<VertexHandle>
    requires b in t.bodies
  {
    set e, v | e in BodyEdges(t, b) && e in t.edges && v in Endpoints(t.edges[e]) :: v
  }

  /** Every face a body lists is in the table, and so is every edge those
      faces list: the body's lookups cannot fail. */
  ghost predicate BodyResolves(t: Tables, b: BodyHandle)
    requires b in t.bodies
  {
    (forall f :: f in t.bodies[b].faces ==> f in t.faces) && (forall e :: e in BodyEdges(t, b) ==> e in t.edges)
  }

  ghost predicate BodiesResolve(t: Tables) {
    forall b :: b in t.bodies ==> BodyResolves(t, b)
  }

  /** A vertex with its incident edges appended. */
  ghost function WithEdges(t: Tables, v: VertexHandle): VertexData
    requires v in t.vertices
  {
    t.vertices[v].(edges := t.vertices[v].edges + InOrder(IncidentEdges(t, v)))
  }

  /** An edge with its adjacent faces appended. */
  ghost function WithFaces(t: Tables, e: EdgeHandle): EdgeData
    requires e in t.edges
  {
    t.edges[e].(faces := t.edges[e].faces + InOrder(AdjacentFaces(t, e)))
  }

  /** A face with its owning bodies appended. */
  ghost function WithBodies(t: Tables, f: FaceHandle): FaceData
    requires f in t.faces
  {
    t.faces[f].(bodies := t.faces[f].bodies + InOrder(OwningBodies(t, f)))
  }

  /** A body with its edges appended. */
  ghost function WithBodyEdges(t: Tables, b: BodyHandle): BodyData
    requires b in t.bodies
  {
    t.bodies[b].(edges := t.bodies[b].edges + InOrder(BodyEdges(t, b)))
  }

  /** A body with its edges and vertices appended. */
  ghost function WithBodyTopology(t: Tables, b: BodyHandle): BodyData
    requires b in t.bodies
  {
    WithBodyEdges(t, b).(vertices := t.bodies[b].vertices + InOrder(BodyVertices(t, b)))
  }

  /** The first three phases: vertex, edge and face lists derived. */
  ghost function DerivedIncidence(t: Tables): Tables {
    t.(vertices := map v | v in t.vertices :: WithEdges(t, v),
       edges := map e | e in t.edges :: WithFaces(t, e),
       faces := map f | f in t.faces :: WithBodies(t, f))
  }

  /** A run of `buildBottomUpTopology` that completes. */
  ghost function Derived(t: Tables): Tables {
    DerivedIncidence(t).(bodies := map b | b in t.bodies :: WithBodyTopology(t, b))
  }

  /** `t'` differs from `t` at most in the derived lists. */
  ghost predicate SameTopDown(t: Tables, t': Tables) {
    && t'.assemblies == t.assemblies && t'.parts == t.parts && t'.loops == t.loops && t'.shells == t.shells
    && t'.bodies.Keys == t.bodies.Keys && t'.faces.Keys == t.faces.Keys
    && t'.edges.Keys == t.edges.Keys && t'.vertices.Keys == t.vertices.Keys
    && (forall b :: b in t.bodies ==> t'.bodies[b].faces == t.bodies[b].faces && t'.bodies[b].shells == t.bodies[b].shells)
    && (forall f :: f in t.faces ==>
          var d, d' := t.faces[f], t'.faces[f];
          && d'.edges == d.edges && d'.loops == d.loops
          && d'.pointStart == d.pointStart && d'.pointSize == d.pointSize
          && d'.facetStart == d.facetStart && d'.facetSize == d.facetSize
          && d'.paramStart == d.paramStart && d'.paramSize == d.paramSize)
    && (forall e :: e in t.edges ==>
          var d, d' := t.edges[e], t'.edges[e];
          && d'.startVertex == d.startVertex && d'.endVertex == d.endVertex
          && d'.pointStart == d.pointStart && d'.pointSize == d.pointSize
          && d'.paramStart == d.paramStart && d'.paramSize == d.paramSize)
    && (forall v :: v in t.vertices ==> t'.vertices[v].pointIndex == t.vertices[v].pointIndex)
  }

  /** The body table a throw from `Faces_.at` or `Edges_.at` leaves: each body
      untouched, with only its edges appended, or with both appended; a body
      whose faces do not resolve keeps its edges, and one that does not
      resolve keeps its vertices. */
  ghost predicate PartialBodies(t: Tables, bodies': map<BodyHandle, BodyData>) {
    && bodies'.Keys == t.bodies.Keys
    && forall b :: b in t.bodies ==>
         var d, d' := t.bodies[b], bodies'[b];
         && d'.faces == d.faces && d'.shells == d.shells
         && (d'.edges == d.edges || ((forall f :: f in d.faces ==> f in t.faces) && d'.edges == WithBodyEdges(t, b).edges))
         && (d'.vertices == d.vertices || (BodyResolves(t, b) && d' == WithBodyTopology(t, b)))
  }

  /** The state a throw leaves: the first three phases done, the body phase
      partly done. */
  ghost predicate PartiallyDerived(t: Tables, t': Tables) {
    var inc := DerivedIncidence(t);
    && t'.assemblies == t.assemblies && t'.parts == t.parts && t'.loops == t.loops && t'.shells == t.shells
    && t'.vertices == inc.vertices && t'.edges == inc.edges && t'.faces == inc.faces
    && PartialBodies(t, t'.bodies)
  }

  /** The edges that some of the listed faces, those in the table, list. */
  ghost function EdgesOfFaces(faces: map<FaceHandle, FaceData>, fs: seq<FaceHandle>): set<EdgeHandle> {
    set f, e | f in fs && f in faces && e in faces[f].edges :: e
  }

  /** The valid endpoints of the given edges that are in the table. */
  ghost function EndpointsOf(edges: map<EdgeHandle, EdgeData>, es: set<EdgeHandle>): set<VertexHandle> {
    set e, v | e in es && e in edges && v in Endpoints(edges[e]) :: v
  }

  /** The edges among `done` having `v` as a valid endpoint. */
  ghost function IncidentAmong(edges: map<EdgeHandle, EdgeData>, done: set<EdgeHandle>, v: VertexHandle): set<EdgeHandle> {
    set e | e in edges && e in done && v in Endpoints(edges[e])
  }

  /** The faces among `done` listing edge `e`. */
  ghost function AdjacentAmong(faces: map<FaceHandle, FaceData>, done: set<FaceHandle>, e: EdgeHandle): set<FaceHandle> {
    set f | f in faces && f in done && e in faces[f].edges
  }

  /** The bodies among `done` listing face `f`. */
  ghost function OwnersAmong(bodies: map<BodyHandle, BodyData>, done: set<BodyHandle>, f: FaceHandle): set<BodyHandle> {
    set b | b in bodies && b in done && f in bodies[b].faces
  }

  lemma PartiallyDerivedKeepsTopDown(t: Tables, t': Tables)
    requires PartiallyDerived(t, t')
    ensures SameTopDown(t, t')
  {
    IncidenceKeepsTopDown(t);
  }

  /** Having the same top-down fields is an equivalence. */
  lemma SameTopDownIsReflexive(t: Tables)
    ensures SameTopDown(t, t)
  {
  }

  lemma SameTopDownIsSymmetric(t: Tables, t': Tables)
    requires SameTopDown(t, t')
    ensures SameTopDown(t', t)
  {
  }

  lemma SameTopDownIsTransitive(t: Tables, t': Tables, t'': Tables)
    requires SameTopDown(t, t') && SameTopDown(t', t'')
    ensures SameTopDown(t, t'')
  {
  }

  /** Derivation touches only derived lists. */
  lemma IncidenceKeepsTopDown(t: Tables)
    ensures SameTopDown(t, DerivedIncidence(t))
  {
  }

  lemma DerivationKeepsTopDown(t: Tables)
    ensures SameTopDown(t, Derived(t))
  {
    IncidenceKeepsTopDown(t);
  }

  lemma SameTopDownSameIncidence(t: Tables, t': Tables, v: VertexHandle)
    requires SameTopDown(t, t')
    ensures IncidentEdges(t', v) == IncidentEdges(t, v)
  {
    assert forall e :: e in t.edges ==> Endpoints(t'.edges[e]) == Endpoints(t.edges[e]);
  }

  lemma SameTopDownSameAdjacency(t: Tables, t': Tables, e: EdgeHandle)
    requires SameTopDown(t, t')
    ensures AdjacentFaces(t', e) == AdjacentFaces(t, e)
  {
  }

  lemma SameTopDownSameOwners(t: Tables, t': Tables, f: FaceHandle)
    requires SameTopDown(t, t')
    ensures OwningBodies(t', f) == OwningBodies(t, f)
  {
  }

  lemma SameTopDownSameBodySets(t: Tables, t': Tables, b: BodyHandle)
    requires SameTopDown(t, t') && b in t.bodies
    ensures BodyEdges(t', b) == BodyEdges(t, b) && BodyVertices(t', b) == BodyVertices(t, b)
    ensures BodyResolves(t', b) == BodyResolves(t, b)
  {
    assert BodyEdges(t', b) == BodyEdges(t, b);
    assert forall e :: e in t.edges ==> Endpoints(t'.edges[e]) == Endpoints(t.edges[e]);
  }

  /** The same top-down fields give the same derived sets and the same
      resolution outcome. */
  lemma SameTopDownSameSets(t: Tables, t': Tables)
    requires SameTopDown(t, t')
    ensures forall v :: IncidentEdges(t', v) == IncidentEdges(t, v)
    ensures forall e :: AdjacentFaces(t', e) == AdjacentFaces(t, e)
    ensures forall f :: OwningBodies(t', f) == OwningBodies(t, f)
    ensures forall b :: b in t.bodies ==> BodyEdges(t', b) == BodyEdges(t, b) && BodyVertices(t', b) == BodyVertices(t, b)
    ensures forall b :: b in t.bodies ==> BodyResolves(t', b) == BodyResolves(t, b)
    ensures BodiesResolve(t') == BodiesResolve(t)
  {
    forall v ensures IncidentEdges(t', v) == IncidentEdges(t, v) {
      SameTopDownSameIncidence(t, t', v);
    }
    forall e ensures AdjacentFaces(t', e) == AdjacentFaces(t, e) {
      SameTopDownSameAdjacency(t, t', e);
    }
    forall f ensures OwningBodies(t', f) == OwningBodies(t, f) {
      SameTopDownSameOwners(t, t', f);
    }
    forall b | b in t.bodies
      ensures BodyEdges(t', b) == BodyEdges(t, b) && BodyVertices(t', b) == BodyVertices(t, b)
      ensures BodyResolves(t', b) == BodyResolves(t, b)
    {
      SameTopDownSameBodySets(t, t', b);
    }
  }

  lemma SameTopDownSamePointRuns(t: Tables, t': Tables)
    requires SameTopDown(t, t') && PointRunsApart(t)
    ensures PointRunsApart(t')
  {
    assert forall o :: Owns(t', o) == Owns(t, o);
    forall o | Owns(t, o) ensures PointRun(t', o) == PointRun(t, o) {
    }
  }

  lemma SameTopDownSameFaceRuns(t: Tables, t': Tables)
    requires SameTopDown(t, t') && FaceRunsApart(t)
    ensures FaceRunsApart(t')
  {
    forall f | f in t'.faces
      ensures f in t.faces && FacetRun(t'.faces[f]) == FacetRun(t.faces[f])
      ensures FaceParamRun(t'.faces[f]) == FaceParamRun(t.faces[f])
    {
    }
  }

  lemma SameTopDownSameEdgeRuns(t: Tables, t': Tables)
    requires SameTopDown(t, t') && EdgeRunsApart(t)
    ensures EdgeRunsApart(t')
  {
    forall e | e in t'.edges ensures e in t.edges && EdgeParamRun(t'.edges[e]) == EdgeParamRun(t.edges[e]) {
    }
  }

  /** Either outcome of the derivation keeps a store well formed. */
  lemma DerivationKeepsWellFormed(s: Store, t': Tables)
    requires s.WellFormed()
    requires t' == Derived(s.tables) || PartiallyDerived(s.tables, t')
    ensures s.(tables := t').WellFormed()
  {
    if t' == Derived(s.tables) {
      DerivationKeepsTopDown(s.tables);
    } else {
      PartiallyDerivedKeepsTopDown(s.tables, t');
    }
    SameTopDownKeepsWellFormed(s, t');
  }

  /** Changing only derived lists keeps a store well formed, since every
      stored range is a top-down field. */
  lemma SameTopDownKeepsWellFormed(s: Store, t': Tables)
    requires SameTopDown(s.tables, t') && s.WellFormed()
    ensures s.(tables := t').WellFormed()
  {
    SameTopDownSamePointRuns(s.tables, t');
    SameTopDownSameFaceRuns(s.tables, t');
    SameTopDownSameEdgeRuns(s.tables, t');
  }

  /** Vertex to edges is the inverse of the edge endpoints: after a single run
      on underived tables, a vertex's list is the ascending, duplicate-free
      listing of the table edges whose valid start or end is that vertex. */
  lemma VertexEdgesInvertEndpoints(t: Tables, v: VertexHandle)
    requires Underived(t) && v in t.vertices
    ensures var l := Derived(t).vertices[v].edges;
      && Ascending(l)
      && forall e :: e in l <==> e in t.edges && v.IsValid() && (t.edges[e].startVertex == v || t.edges[e].endVertex == v)
  {
    assert Derived(t).vertices[v].edges == InOrder(IncidentEdges(t, v));
  }

  /** Edge to faces is the inverse of the face edge lists. */
  lemma EdgeFacesInvertFaceEdges(t: Tables, e: EdgeHandle)
    requires Underived(t) && e in t.edges
    ensures var l := Derived(t).edges[e].faces;
      Ascending(l) && forall f :: f in l <==> f in t.faces && e in t.faces[f].edges
  {
    assert Derived(t).edges[e].faces == InOrder(AdjacentFaces(t, e));
  }

  /** Face to bodies is the inverse of the body face lists. */
  lemma FaceBodiesInvertBodyFaces(t: Tables, f: FaceHandle)
    requires Underived(t) && f in t.faces
    ensures var l := Derived(t).faces[f].bodies;
      Ascending(l) && forall b :: b in l <==> b in t.bodies && f in t.bodies[b].faces
  {
    assert Derived(t).faces[f].bodies == InOrder(OwningBodies(t, f));
  }

  /** A body's edge list is the ascending, deduplicated union of its faces'
      edge lists, and its vertex list the ascending, deduplicated set of the
      valid endpoints of those edges. */
  lemma BodyListsAreUnions(t: Tables, b: BodyHandle)
    requires Underived(t) && b in t.bodies && BodyResolves(t, b)
    ensures var d := Derived(t).bodies[b];
      && Ascending(d.edges) && Ascending(d.vertices)
      && (forall e :: e in d.edges <==> exists f :: f in t.bodies[b].faces && e in t.faces[f].edges)
      && (forall v :: v in d.vertices <==> exists e :: e in d.edges && v in Endpoints(t.edges[e]))
  {
    var d := Derived(t).bodies[b];
    assert d.edges == InOrder(BodyEdges(t, b));
    assert d.vertices == InOrder(BodyVertices(t, b));
    forall e ensures e in d.edges <==> exists f :: f in t.bodies[b].faces && e in t.faces[f].edges {
      if e in d.edges {
        var f :| f in t.bodies[b].faces && f in t.faces && e in t.faces[f].edges;
      }
    }
    forall v ensures v in d.vertices <==> exists e :: e in d.edges && v in Endpoints(t.edges[e]) {
      if v in d.vertices {
        var e :| e in BodyEdges(t, b) && e in t.edges && v in Endpoints(t.edges[e]);
        assert e in d.edges;
      }
    }
  }

  /** The derived lists agree with each other: every edge of a body is
      reached through one of the body's faces, whose owners include the
      body. */
  lemma BodyEdgesReachBody(t: Tables, b: BodyHandle)
    requires Underived(t) && b in t.bodies && BodyResolves(t, b)
    ensures var r := Derived(t); var d := r.bodies[b];
      forall e :: e in d.edges ==>
        e in r.edges && exists f :: f in r.edges[e].faces && f in r.faces && b in r.faces[f].bodies
  {
    var r := Derived(t);
    var d := r.bodies[b];
    BodyListsAreUnions(t, b);
    forall e | e in d.edges
      ensures e in r.edges && exists f :: f in r.edges[e].faces && f in r.faces && b in r.faces[f].bodies
    {
      var f :| f in t.bodies[b].faces && e in t.faces[f].edges;
      assert e in BodyEdges(t, b);
      EdgeFacesInvertFaceEdges(t, e);
      FaceBodiesInvertBodyFaces(t, f);
      assert f in r.edges[e].faces && b in r.faces[f].bodies;
    }
  }

  /** Every vertex of a body lists one of the body's edges. */
  lemma BodyVerticesReachEdges(t: Tables, b: BodyHandle)
    requires Underived(t) && b in t.bodies && BodyResolves(t, b)
    ensures var r := Derived(t); var d := r.bodies[b];
      forall v :: v in d.vertices && v in r.vertices ==> exists e :: e in d.edges && e in r.vertices[v].edges
  {
    var r := Derived(t);
    var d := r.bodies[b];
    BodyListsAreUnions(t, b);
    forall v | v in d.vertices && v in r.vertices ensures exists e :: e in d.edges && e in r.vertices[v].edges {
      var e :| e in d.edges && v in Endpoints(t.edges[e]);
      VertexEdgesInvertEndpoints(t, v);
      assert e in r.vertices[v].edges;
    }
  }

  /** What a completed run stores for one vertex, edge, face or body. */
  lemma DerivedVertex(t: Tables, v: VertexHandle)
    requires v in t.vertices
    ensures v in Derived(t).vertices && Derived(t).vertices[v] == WithEdges(t, v)
  {
  }

  lemma DerivedEdge(t: Tables, e: EdgeHandle)
    requires e in t.edges
    ensures e in Derived(t).edges && Derived(t).edges[e] == WithFaces(t, e)
  {
  }

  lemma DerivedFace(t: Tables, f: FaceHandle)
    requires f in t.faces
    ensures f in Derived(t).faces && Derived(t).faces[f] == WithBodies(t, f)
  {
  }

  lemma DerivedBody(t: Tables, b: BodyHandle)
    requires b in t.bodies
    ensures b in Derived(t).bodies && Derived(t).bodies[b] == WithBodyTopology(t, b)
  {
  }

  /** A second run sees the same incidence sets as the first. */
  lemma RederivedVertex(t: Tables, v: VertexHandle)
    requires v in t.vertices
    ensures Derived(Derived(t)).vertices[v].edges == Derived(t).vertices[v].edges + InOrder(IncidentEdges(t, v))
  {
    DerivationKeepsTopDown(t);
    SameTopDownSameIncidence(t, Derived(t), v);
    DerivedVertex(t, v);
    DerivedVertex(Derived(t), v);
  }

  lemma RederivedEdge(t: Tables, e: EdgeHandle)
    requires e in t.edges
    ensures Derived(Derived(t)).edges[e].faces == Derived(t).edges[e].faces + InOrder(AdjacentFaces(t, e))
  {
    DerivationKeepsTopDown(t);
    SameTopDownSameAdjacency(t, Derived(t), e);
    DerivedEdge(t, e);
    DerivedEdge(Derived(t), e);
  }

  lemma RederivedFace(t: Tables, f: FaceHandle)
    requires f in t.faces
    ensures Derived(Derived(t)).faces[f].bodies == Derived(t).faces[f].bodies + InOrder(OwningBodies(t, f))
  {
    DerivationKeepsTopDown(t);
    SameTopDownSameOwners(t, Derived(t), f);
    DerivedFace(t, f);
    DerivedFace(Derived(t), f);
  }

  /** A list appended to an empty list, then appended again, holds itself twice. */
  lemma AppendedTwice<T>(a: seq<T>, d: seq<T>, d2: seq<T>, x: seq<T>)
    requires a == [] && d == a + x && d2 == d + x
    ensures d2 == d + d
  {
  }

  lemma VertexListsDuplicate(t: Tables, v: VertexHandle)
    requires Underived(t) && v in t.vertices
    ensures Derived(Derived(t)).vertices[v].edges == Derived(t).vertices[v].edges + Derived(t).vertices[v].edges
  {
    DerivedVertex(t, v);
    RederivedVertex(t, v);
    AppendedTwice(t.vertices[v].edges, Derived(t).vertices[v].edges, Derived(Derived(t)).vertices[v].edges,
                  InOrder(IncidentEdges(t, v)));
  }

  lemma EdgeListsDuplicate(t: Tables, e: EdgeHandle)
    requires Underived(t) && e in t.edges
    ensures Derived(Derived(t)).edges[e].faces == Derived(t).edges[e].faces + Derived(t).edges[e].faces
  {
    DerivedEdge(t, e);
    RederivedEdge(t, e);
    AppendedTwice(t.edges[e].faces, Derived(t).edges[e].faces, Derived(Derived(t)).edges[e].faces,
                  InOrder(AdjacentFaces(t, e)));
  }

  lemma FaceListsDuplicate(t: Tables, f: FaceHandle)
    requires Underived(t) && f in t.faces
    ensures Derived(Derived(t)).faces[f].bodies == Derived(t).faces[f].bodies + Derived(t).faces[f].bodies
  {
    DerivedFace(t, f);
    RederivedFace(t, f);
    AppendedTwice(t.faces[f].bodies, Derived(t).faces[f].bodies, Derived(Derived(t)).faces[f].bodies,
                  InOrder(OwningBodies(t, f)));
  }

  lemma RederivedBody(t: Tables, b: BodyHandle)
    requires b in t.bodies
    ensures var r, r2 := Derived(t), Derived(Derived(t));
      && r2.bodies[b].edges == r.bodies[b].edges + InOrder(BodyEdges(t, b))
      && r2.bodies[b].vertices == r.bodies[b].vertices + InOrder(BodyVertices(t, b))
  {
    DerivationKeepsTopDown(t);
    SameTopDownSameBodySets(t, Derived(t), b);
    DerivedBody(t, b);
    DerivedBody(Derived(t), b);
  }

  lemma BodyListsDuplicate(t: Tables, b: BodyHandle)
    requires Underived(t) && b in t.bodies
    ensures var r, r2 := Derived(t), Derived(Derived(t));
      && r2.bodies[b].edges == r.bodies[b].edges + r.bodies[b].edges
      && r2.bodies[b].vertices == r.bodies[b].vertices + r.bodies[b].vertices
  {
    DerivedBody(t, b);
    RederivedBody(t, b);
    var d, d2 := Derived(t).bodies[b], Derived(Derived(t)).bodies[b];
    AppendedTwice(t.bodies[b].edges, d.edges, d2.edges, InOrder(BodyEdges(t, b)));
    AppendedTwice(t.bodies[b].vertices, d.vertices, d2.vertices, InOrder(BodyVertices(t, b)));
  }

  /** The derived lists are appended to, not replaced: a second run appends
      the same listing again, so every derived list holds it twice. */
  lemma DerivingTwiceDuplicates(t: Tables)
    requires Underived(t)
    ensures var r, r2 := Derived(t), Derived(Derived(t));
      && (forall v :: v in t.vertices ==> r2.vertices[v].edges == r.vertices[v].edges + r.vertices[v].edges)
      && (forall e :: e in t.edges ==> r2.edges[e].faces == r.edges[e].faces + r.edges[e].faces)
      && (forall f :: f in t.faces ==> r2.faces[f].bodies == r.faces[f].bodies + r.faces[f].bodies)
      && (forall b :: b in t.bodies ==>
            && r2.bodies[b].edges == r.bodies[b].edges + r.bodies[b].edges
            && r2.bodies[b].vertices == r.bodies[b].vertices + r.bodies[b].vertices)
  {
    forall v | v in t.vertices ensures Derived(Derived(t)).vertices[v].edges == Derived(t).vertices[v].edges + Derived(t).vertices[v].edges {
      VertexListsDuplicate(t, v);
    }
    forall e | e in t.edges ensures Derived(Derived(t)).edges[e].faces == Derived(t).edges[e].faces + Derived(t).edges[e].faces {
      EdgeListsDuplicate(t, e);
    }
    forall f | f in t.faces ensures Derived(Derived(t)).faces[f].bodies == Derived(t).faces[f].bodies + Derived(t).faces[f].bodies {
      FaceListsDuplicate(t, f);
    }
    forall b | b in t.bodies
      ensures && Derived(Derived(t)).bodies[b].edges == Derived(t).bodies[b].edges + Derived(t).bodies[b].edges
              && Derived(Derived(t)).bodies[b].vertices == Derived(t).bodies[b].vertices + Derived(t).bodies[b].vertices
    {
      BodyListsDuplicate(t, b);
    }
  }
}
