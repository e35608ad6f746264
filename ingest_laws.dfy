/** What the populating pass guarantees: the counter and the loop handles it
    generates, last-write-wins per table slot, append-only geometry with
    disjoint ranges, and accessors that give back what the last record of a
    slot supplied. */
module IngestLaws {
  import opened Handles
  import opened Geometry
  import opened Records
  import opened BRepModel
  import opened HandleSets

  /** The table and key a known record is stored under. */
  datatype Slot =
    | AssemblySlot(a: AssemblyHandle)
    | PartSlot(p: PartHandle)
    | BodySlot(b: BodyHandle)
    | FaceSlot(f: FaceHandle)
    | EdgeSlot(e: EdgeHandle)
    | VertexSlot(v: VertexHandle)

  function SlotOf(e: BRepEntity): Slot
    requires e.IsKnown()
  {
    match e
    case AssemblyEntity(a) => AssemblySlot(Handle(a.id))
    case PartEntity(p) => PartSlot(Handle(p.id))
    case BodyEntity(b) => BodySlot(Handle(b.id))
    case FaceEntity(f) => FaceSlot(Handle(f.id))
    case EdgeEntity(ed) => EdgeSlot(Handle(ed.id))
    case VertexEntity(v) => VertexSlot(Handle(v.id))
  }

  /** Whether record `e` is stored under slot `sl`. */
  predicate Targets(e: BRepEntity, sl: Slot) {
    e.IsKnown() && SlotOf(e) == sl
  }

  /** The content of one table slot. */
  datatype Entry =
    | Absent
    | AssemblyEntry(assembly: AssemblyData)
    | PartEntry(part: PartData)
    | BodyEntry(body: BodyData)
    | FaceEntry(face: FaceData)
    | EdgeEntry(edge: EdgeData)
    | VertexEntry(vertex: VertexData)

  function EntryAt(t: Tables, sl: Slot): Entry {
    match sl
    case AssemblySlot(h) => if h in t.assemblies then AssemblyEntry(t.assemblies[h]) else Absent
    case PartSlot(h) => if h in t.parts then PartEntry(t.parts[h]) else Absent
    case BodySlot(h) => if h in t.bodies then BodyEntry(t.bodies[h]) else Absent
    case FaceSlot(h) => if h in t.faces then FaceEntry(t.faces[h]) else Absent
    case EdgeSlot(h) => if h in t.edges then EdgeEntry(t.edges[h]) else Absent
    case VertexSlot(h) => if h in t.vertices then VertexEntry(t.vertices[h]) else Absent
  }

  /** The number of loop handles a stream makes the store generate. */
  function TotalLoops(es: seq<BRepEntity>): nat
    decreases |es|
  {
    if es == [] then 0 else TotalLoops(es[..|es| - 1]) + es[|es| - 1].LoopCount()
  }

  /** The point rows a record appends. */
  function PointsOf(e: BRepEntity): seq<Point> {
    match e
    case FaceEntity(f) => f.surface.points
    case EdgeEntity(ed) => ed.curve.points
    case VertexEntity(v) => [v.point]
    case _ => []
  }

  function TrianglesOf(e: BRepEntity): seq<Triangle> {
    if e.FaceEntity? then e.face.surface.triangles else []
  }

  function FaceParamsOf(e: BRepEntity): seq<SurfaceParam> {
    if e.FaceEntity? then e.face.surface.parameters else []
  }

  function EdgeParamsOf(e: BRepEntity): seq<real> {
    if e.EdgeEntity? then e.edge.curve.parameters else []
  }

  /** The arrays `a` extended by everything the records of `es` append, in
      stream order. */
  function AppendAll(a: Arrays, es: seq<BRepEntity>): Arrays
    decreases |es|
  {
    if es == [] then a
    else
      var a' := AppendAll(a, es[..|es| - 1]);
      var e := es[|es| - 1];
      Arrays(a'.points + PointsOf(e), a'.facets + TrianglesOf(e),
             a'.faceParams + FaceParamsOf(e), a'.edgeParams + EdgeParamsOf(e))
  }

  /** The running maximum is -1 or the identifier of a known record, and no
      known record's identifier exceeds it. */
  lemma {:induction false} MaxKnownIdIsMaximum(es: seq<BRepEntity>)
    ensures MaxKnownId(es) >= -1
    ensures forall i :: 0 <= i < |es| && es[i].IsKnown() ==> es[i].Id() <= MaxKnownId(es)
    ensures MaxKnownId(es) == -1 || exists i :: 0 <= i < |es| && es[i].IsKnown() && es[i].Id() == MaxKnownId(es)
    decreases |es|
  {
    if es != [] {
      var init := es[..|es| - 1];
      MaxKnownIdIsMaximum(init);
      assert forall i :: 0 <= i < |init| ==> init[i] == es[i];
    }
  }

  /** With no known record the counter starts at 0. */
  lemma {:induction false} NoKnownRecordGivesZero(a: Arrays, es: seq<BRepEntity>)
    requires forall i :: 0 <= i < |es| ==> !es[i].IsKnown()
    ensures Prepared(a, es).counter == 0
    decreases |es|
  {
    if es != [] {
      var init := es[..|es| - 1];
      assert forall i :: 0 <= i < |init| ==> init[i] == es[i];
      NoKnownRecordGivesZero(a, init);
    }
  }

  /** Ingesting a stream is ingesting a prefix and then the rest. */
  lemma {:induction false} IngestSplits(s: Store, es: seq<BRepEntity>, k: nat)
    requires k <= |es|
    ensures IngestAll(s, es).0 == IngestAll(IngestAll(s, es[..k]).0, es[k..]).0
    ensures IngestAll(s, es).1 == (IngestAll(s, es[..k]).1 && IngestAll(IngestAll(s, es[..k]).0, es[k..]).1)
    decreases |es|
  {
    if k == |es| {
      assert es[..k] == es;
      assert es[k..] == [];
    } else {
      var init := es[..|es| - 1];
      IngestSplits(s, init, k);
      assert init[..k] == es[..k];
      assert es[k..][..|es[k..]| - 1] == init[k..];
      assert es[k..][|es[k..]| - 1] == es[|es| - 1];
    }
  }

  /** The build result is the AND of the per-record results: it is false
      exactly when some record is of no known kind. */
  lemma {:induction false} IngestSucceedsIffAllKnown(s: Store, es: seq<BRepEntity>)
    ensures IngestAll(s, es).1 <==> forall i :: 0 <= i < |es| ==> es[i].IsKnown()
    decreases |es|
  {
    if es != [] {
      var init := es[..|es| - 1];
      IngestSucceedsIffAllKnown(s, init);
      assert forall i :: 0 <= i < |init| ==> init[i] == es[i];
    }
  }

  /** An unknown record neither stops nor alters the records after it: the
      final store is the one the stream without it gives. */
  lemma UnknownRecordIsSkipped(s: Store, es1: seq<BRepEntity>, es2: seq<BRepEntity>)
    ensures IngestAll(s, es1 + [UnknownEntity] + es2).0 == IngestAll(s, es1 + es2).0
    ensures !IngestAll(s, es1 + [UnknownEntity] + es2).1
  {
    var xs := es1 + [UnknownEntity] + es2;
    var ys := es1 + es2;
    IngestSplits(s, xs, |es1| + 1);
    IngestSplits(s, ys, |es1|);
    assert xs[..|es1| + 1] == es1 + [UnknownEntity];
    assert (es1 + [UnknownEntity])[..|es1|] == es1;
    assert xs[|es1| + 1..] == es2;
    assert ys[..|es1|] == es1;
    assert ys[|es1|..] == es2;
  }

  /** The counter grows by exactly the number of loops ingested. */
  lemma {:induction false} IngestCounter(s: Store, es: seq<BRepEntity>)
    ensures IngestAll(s, es).0.counter == s.counter + TotalLoops(es)
    decreases |es|
  {
    if es != [] {
      IngestCounter(s, es[..|es| - 1]);
    }
  }

  /** A stream's loop count is its prefix's plus the rest's. */
  lemma {:induction false} TotalLoopsOfPrefix(es: seq<BRepEntity>, k: nat)
    requires k <= |es|
    ensures TotalLoops(es) == TotalLoops(es[..k]) + TotalLoops(es[k..])
    decreases |es|
  {
    if k < |es| {
      var init := es[..|es| - 1];
      TotalLoopsOfPrefix(init, k);
      assert init[..k] == es[..k];
      assert es[k..][..|es[k..]| - 1] == init[k..];
      assert es[k..][|es[k..]| - 1] == es[|es| - 1];
    } else {
      assert es[..k] == es;
      assert es[k..] == [];
    }
  }

  /** The loop table after one face holds the old keys and the handles
      `c + 1 .. c + |ls|`. */
  lemma {:induction false} AddLoopsKeys(m: map<LoopHandle, LoopData>, c: int, ls: seq<Loop>)
    ensures forall k :: k in AddLoops(m, c, ls) <==> k in m || c < k.idx <= c + |ls|
    decreases |ls|
  {
    if ls != [] {
      AddLoopsKeys(m, c, ls[..|ls| - 1]);
    }
  }

  /** Every loop handle of `t`, as a key of the loop table or in a face's loop
      list, was already in `t0` or lies in `(lo, hi]`. */
  ghost predicate LoopsFrom(t0: Tables, t: Tables, lo: int, hi: int) {
    && (forall k :: k in t.loops ==> k in t0.loops || lo < k.idx <= hi)
    && (forall f, l :: f in t.faces && l in t.faces[f].loops ==>
          (f in t0.faces && l in t0.faces[f].loops) || lo < l.idx <= hi)
  }

  lemma LoopsFromChains(t0: Tables, t1: Tables, t2: Tables, a: int, b: int, c: int)
    requires a <= b <= c
    requires LoopsFrom(t0, t1, a, b) && LoopsFrom(t1, t2, b, c)
    ensures LoopsFrom(t0, t2, a, c)
  {
  }

  /** One record generates loop handles only above the counter it finds. */
  lemma AddRecordLoops(s: Store, e: BRepEntity)
    ensures s.counter <= AddRecord(s, e).0.counter
    ensures LoopsFrom(s.tables, AddRecord(s, e).0.tables, s.counter, AddRecord(s, e).0.counter)
  {
    if e.FaceEntity? {
      AddLoopsKeys(s.tables.loops, s.counter, e.face.loops);
      var run := LoopRun(s.counter, |e.face.loops|);
      assert forall l :: l in run ==> s.counter < l.idx <= s.counter + |e.face.loops|;
    }
  }

  /** Every loop handle in the tables after ingestion was already there or was
      generated in this pass, above the starting counter. */
  lemma {:induction false} IngestLoopHandlesInRange(s: Store, es: seq<BRepEntity>)
    ensures s.counter <= IngestAll(s, es).0.counter
    ensures LoopsFrom(s.tables, IngestAll(s, es).0.tables, s.counter, IngestAll(s, es).0.counter)
    decreases |es|
  {
    if es != [] {
      var mid := IngestAll(s, es[..|es| - 1]).0;
      IngestLoopHandlesInRange(s, es[..|es| - 1]);
      AddRecordLoops(mid, es[|es| - 1]);
      var r := AddRecord(mid, es[|es| - 1]).0;
      LoopsFromChains(s.tables, mid.tables, r.tables, s.counter, mid.counter, r.counter);
    }
  }

  /** Generated handles never collide with input identifiers: after the
      populating pass every loop handle exceeds every known record's id. */
  lemma GeneratedHandlesExceedIds(a: Arrays, es: seq<BRepEntity>)
    ensures var r := Ingested(a, es).0;
      && (forall k, i :: k in r.tables.loops && 0 <= i < |es| && es[i].IsKnown() ==> k.idx > es[i].Id())
      && (forall f, l, i :: f in r.tables.faces && l in r.tables.faces[f].loops && 0 <= i < |es| && es[i].IsKnown() ==>
            l.idx > es[i].Id())
  {
    MaxKnownIdIsMaximum(es);
    IngestLoopHandlesInRange(Prepared(a, es), es);
  }

  /** The loop handles a face record receives are consecutive from the counter
      before it, so they are ascending, and all of them lie below those of any
      later face record in the stream. */
  lemma LoopHandlesFollowStreamOrder(s: Store, es: seq<BRepEntity>, i: nat, j: nat)
    requires i < j < |es|
    ensures var ci := IngestAll(s, es[..i]).0.counter;
            var cj := IngestAll(s, es[..j]).0.counter;
      && ci + es[i].LoopCount() <= cj
      && Ascending(LoopRun(ci, es[i].LoopCount()))
      && (forall x, y :: x in LoopRun(ci, es[i].LoopCount()) && y in LoopRun(cj, es[j].LoopCount()) ==> x.idx < y.idx)
      && (es[i].FaceEntity? ==>
            var r := IngestAll(s, es[..i + 1]).0;
            Handle(es[i].face.id) in r.tables.faces &&
            r.tables.faces[Handle(es[i].face.id)].loops == LoopRun(ci, es[i].LoopCount()))
  {
    IngestCounter(s, es[..i]);
    IngestCounter(s, es[..i + 1]);
    IngestCounter(s, es[..j]);
    TotalLoopsOfPrefix(es[..j], i + 1);
    assert es[..j][..i + 1] == es[..i + 1];
    assert es[..i + 1][..i] == es[..i];
  }

  /** A record leaves every slot but its own unchanged. */
  lemma AddRecordKeepsOtherSlots(s: Store, e: BRepEntity, sl: Slot)
    requires !Targets(e, sl)
    ensures EntryAt(AddRecord(s, e).0.tables, sl) == EntryAt(s.tables, sl)
  {
  }

  /** A populator replaces its slot in full: what it stores depends on the
      record and on the array sizes and counter, never on the entry it
      overwrites. */
  lemma PopulatorReplacesInFull(s1: Store, s2: Store, e: BRepEntity)
    requires e.IsKnown()
    requires |s1.arrays.points| == |s2.arrays.points| && |s1.arrays.facets| == |s2.arrays.facets|
    requires |s1.arrays.faceParams| == |s2.arrays.faceParams| && |s1.arrays.edgeParams| == |s2.arrays.edgeParams|
    requires s1.counter == s2.counter
    ensures EntryAt(AddRecord(s1, e).0.tables, SlotOf(e)) == EntryAt(AddRecord(s2, e).0.tables, SlotOf(e)) != Absent
  {
  }

  /** Record `i` is the last record of the stream stored under its slot. */
  predicate LastFor(es: seq<BRepEntity>, i: nat) {
    i < |es| && es[i].IsKnown() && forall j :: i < j < |es| ==> !Targets(es[j], SlotOf(es[i]))
  }

  /** Last write wins: the final content of a slot is what the last record
      stored under it left there. */
  lemma {:induction false} LastWriteWins(s: Store, es: seq<BRepEntity>, i: nat)
    requires LastFor(es, i)
    ensures EntryAt(IngestAll(s, es).0.tables, SlotOf(es[i])) == EntryAt(IngestAll(s, es[..i + 1]).0.tables, SlotOf(es[i]))
    decreases |es|
  {
    if i == |es| - 1 {
      assert es[..i + 1] == es;
    } else {
      var init := es[..|es| - 1];
      assert LastFor(init, i);
      LastWriteWins(s, init, i);
      assert init[..i + 1] == es[..i + 1];
      AddRecordKeepsOtherSlots(IngestAll(s, init).0, es[|es| - 1], SlotOf(es[i]));
    }
  }

  /** The geometry arrays are append-only: ingestion appends every record's
      rows in stream order and never touches an existing row. */
  lemma {:induction false} IngestAppendsGeometry(s: Store, es: seq<BRepEntity>)
    ensures IngestAll(s, es).0.arrays == AppendAll(s.arrays, es)
    decreases |es|
  {
    if es != [] {
      IngestAppendsGeometry(s, es[..|es| - 1]);
    }
  }

  /** `a'` holds every row of `a`, at the same position. */
  predicate Extends(a': Arrays, a: Arrays) {
    && |a.points| <= |a'.points| && a'.points[..|a.points|] == a.points
    && |a.facets| <= |a'.facets| && a'.facets[..|a.facets|] == a.facets
    && |a.faceParams| <= |a'.faceParams| && a'.faceParams[..|a.faceParams|] == a.faceParams
    && |a.edgeParams| <= |a'.edgeParams| && a'.edgeParams[..|a.edgeParams|] == a.edgeParams
  }

  lemma PrefixOfPrefix<T>(x: seq<T>, y: seq<T>, z: seq<T>)
    requires |z| <= |y| <= |x| && x[..|y|] == y && y[..|z|] == z
    ensures x[..|z|] == z
  {
    assert x[..|z|] == x[..|y|][..|z|];
  }

  /** Appending never changes a row that was already there. */
  lemma {:induction false} AppendAllExtends(a: Arrays, es: seq<BRepEntity>)
    ensures Extends(AppendAll(a, es), a)
    decreases |es|
  {
    if es != [] {
      AppendAllExtends(a, es[..|es| - 1]);
      var m := AppendAll(a, es[..|es| - 1]);
      var e := es[|es| - 1];
      PrefixOfPrefix(m.points + PointsOf(e), m.points, a.points);
      PrefixOfPrefix(m.facets + TrianglesOf(e), m.facets, a.facets);
      PrefixOfPrefix(m.faceParams + FaceParamsOf(e), m.faceParams, a.faceParams);
      PrefixOfPrefix(m.edgeParams + EdgeParamsOf(e), m.edgeParams, a.edgeParams);
    }
  }

  /** After a point-appending populator, every owner but the new one keeps its
      run, and the new run starts past every old one. */
  lemma PointRunsApartAfterAppend(t: Tables, t': Tables, o0: PointOwner, n: nat)
    requires PointRunsApart(t)
    requires forall o :: Owns(t, o) ==> PointRun(t, o).1 <= n
    requires Owns(t', o0) && PointRun(t', o0).0 >= n
    requires forall o :: Owns(t', o) && o != o0 ==> Owns(t, o) && PointRun(t', o) == PointRun(t, o)
    ensures PointRunsApart(t')
  {
  }

  /** Every stored point run ends inside the point array. */
  lemma PointRunsFit(s: Store)
    requires s.RangesFit()
    ensures forall o :: Owns(s.tables, o) ==> PointRun(s.tables, o).1 <= |s.arrays.points|
  {
    forall o | Owns(s.tables, o) ensures PointRun(s.tables, o).1 <= |s.arrays.points| {
      match o
      case FaceOwner(f) => assert FaceFits(s.tables.faces[f], s.arrays);
      case EdgeOwner(e) => assert EdgeFits(s.tables.edges[e], s.arrays);
      case VertexOwner(v) =>
    }
  }

  /** Replacing one face keeps every other owner's run. */
  lemma FaceUpdateKeepsOtherRuns(t: Tables, t': Tables, h: FaceHandle)
    requires h in t'.faces && t'.edges == t.edges && t'.vertices == t.vertices
    requires forall f :: f in t'.faces && f != h ==> f in t.faces && t'.faces[f] == t.faces[f]
    ensures forall o :: Owns(t', o) && o != FaceOwner(h) ==> Owns(t, o) && PointRun(t', o) == PointRun(t, o)
  {
  }

  /** Replacing one edge keeps every other owner's run. */
  lemma EdgeUpdateKeepsOtherRuns(t: Tables, t': Tables, h: EdgeHandle)
    requires h in t'.edges && t'.faces == t.faces && t'.vertices == t.vertices
    requires forall e :: e in t'.edges && e != h ==> e in t.edges && t'.edges[e] == t.edges[e]
    ensures forall o :: Owns(t', o) && o != EdgeOwner(h) ==> Owns(t, o) && PointRun(t', o) == PointRun(t, o)
  {
  }

  /** Replacing one vertex keeps every other owner's run. */
  lemma VertexUpdateKeepsOtherRuns(t: Tables, t': Tables, h: VertexHandle)
    requires h in t'.vertices && t'.faces == t.faces && t'.edges == t.edges
    requires forall v :: v in t'.vertices && v != h ==> v in t.vertices && t'.vertices[v] == t.vertices[v]
    ensures forall o :: Owns(t', o) && o != VertexOwner(h) ==> Owns(t, o) && PointRun(t', o) == PointRun(t, o)
  {
  }

  /** A store's well-formedness depends only on its face, edge and vertex
      tables and its arrays. */
  lemma WellFormedDependsOnRanges(s: Store, s': Store)
    requires s'.tables.faces == s.tables.faces && s'.tables.edges == s.tables.edges
    requires s'.tables.vertices == s.tables.vertices && s'.arrays == s.arrays
    requires s.WellFormed()
    ensures s'.WellFormed()
  {
    assert forall o :: Owns(s'.tables, o) == Owns(s.tables, o);
    assert forall o :: Owns(s.tables, o) ==> PointRun(s'.tables, o) == PointRun(s.tables, o);
  }

  lemma AddFaceKeepsRangesFit(s: Store, f: Face)
    requires s.RangesFit()
    ensures AddFace(s, f).RangesFit()
  {
  }

  /** A face whose triangle and parameter runs start past every stored face's
      runs keeps the faces' runs apart. */
  lemma FaceRunsApartAfterAppend(t: Tables, t': Tables, h: FaceHandle, nf: nat, np: nat)
    requires FaceRunsApart(t)
    requires forall f :: f in t.faces ==> FacetRun(t.faces[f]).1 <= nf && FaceParamRun(t.faces[f]).1 <= np
    requires h in t'.faces && FacetRun(t'.faces[h]).0 >= nf && FaceParamRun(t'.faces[h]).0 >= np
    requires forall f :: f in t'.faces && f != h ==> f in t.faces && t'.faces[f] == t.faces[f]
    ensures FaceRunsApart(t')
  {
  }

  lemma AddFaceKeepsFaceRunsApart(s: Store, f: Face)
    requires s.RangesFit() && FaceRunsApart(s.tables)
    ensures FaceRunsApart(AddFace(s, f).tables)
  {
    var t := s.tables;
    forall g | g in t.faces
      ensures FacetRun(t.faces[g]).1 <= |s.arrays.facets| && FaceParamRun(t.faces[g]).1 <= |s.arrays.faceParams|
    {
      assert FaceFits(t.faces[g], s.arrays);
    }
    FaceRunsApartAfterAppend(t, AddFace(s, f).tables, Handle(f.id), |s.arrays.facets|, |s.arrays.faceParams|);
  }

  lemma AddFaceKeepsPointRunsApart(s: Store, f: Face)
    requires s.RangesFit() && PointRunsApart(s.tables)
    ensures PointRunsApart(AddFace(s, f).tables)
  {
    var t, t' := s.tables, AddFace(s, f).tables;
    PointRunsFit(s);
    FaceUpdateKeepsOtherRuns(t, t', Handle(f.id));
    PointRunsApartAfterAppend(t, t', FaceOwner(Handle(f.id)), |s.arrays.points|);
  }

  lemma AddFaceKeepsWellFormed(s: Store, f: Face)
    requires s.WellFormed()
    ensures AddFace(s, f).WellFormed()
  {
    AddFaceKeepsRangesFit(s, f);
    AddFaceKeepsFaceRunsApart(s, f);
    AddFaceKeepsPointRunsApart(s, f);
    assert AddFace(s, f).tables.edges == s.tables.edges;
  }

  lemma AddEdgeKeepsPointRunsApart(s: Store, ed: Edge)
    requires s.RangesFit() && PointRunsApart(s.tables)
    ensures PointRunsApart(AddEdge(s, ed).tables)
  {
    var t, t' := s.tables, AddEdge(s, ed).tables;
    PointRunsFit(s);
    EdgeUpdateKeepsOtherRuns(t, t', Handle(ed.id));
    PointRunsApartAfterAppend(t, t', EdgeOwner(Handle(ed.id)), |s.arrays.points|);
  }

  /** An edge whose parameter run starts past every stored edge's run keeps
      the edges' runs apart. */
  lemma EdgeRunsApartAfterAppend(t: Tables, t': Tables, h: EdgeHandle, n: nat)
    requires EdgeRunsApart(t)
    requires forall e :: e in t.edges ==> EdgeParamRun(t.edges[e]).1 <= n
    requires h in t'.edges && EdgeParamRun(t'.edges[h]).0 >= n
    requires forall e :: e in t'.edges && e != h ==> e in t.edges && t'.edges[e] == t.edges[e]
    ensures EdgeRunsApart(t')
  {
  }

  lemma AddEdgeKeepsEdgeRunsApart(s: Store, ed: Edge)
    requires s.RangesFit() && EdgeRunsApart(s.tables)
    ensures EdgeRunsApart(AddEdge(s, ed).tables)
  {
    var t := s.tables;
    forall e | e in t.edges ensures EdgeParamRun(t.edges[e]).1 <= |s.arrays.edgeParams| {
      assert EdgeFits(t.edges[e], s.arrays);
    }
    EdgeRunsApartAfterAppend(t, AddEdge(s, ed).tables, Handle(ed.id), |s.arrays.edgeParams|);
  }

  lemma AddEdgeKeepsRangesFit(s: Store, ed: Edge)
    requires s.RangesFit()
    ensures AddEdge(s, ed).RangesFit()
  {
  }

  lemma AddEdgeKeepsWellFormed(s: Store, ed: Edge)
    requires s.WellFormed()
    ensures AddEdge(s, ed).WellFormed()
  {
    AddEdgeKeepsRangesFit(s, ed);
    AddEdgeKeepsPointRunsApart(s, ed);
    AddEdgeKeepsEdgeRunsApart(s, ed);
    assert AddEdge(s, ed).tables.faces == s.tables.faces;
  }

  lemma AddVertexKeepsRangesFit(s: Store, v: Vertex)
    requires s.RangesFit()
    ensures AddVertex(s, v).RangesFit()
  {
  }

  lemma AddVertexKeepsPointRunsApart(s: Store, v: Vertex)
    requires s.RangesFit() && PointRunsApart(s.tables)
    ensures PointRunsApart(AddVertex(s, v).tables)
  {
    var t, t' := s.tables, AddVertex(s, v).tables;
    PointRunsFit(s);
    VertexUpdateKeepsOtherRuns(t, t', Handle(v.id));
    PointRunsApartAfterAppend(t, t', VertexOwner(Handle(v.id)), |s.arrays.points|);
  }

  lemma AddVertexKeepsWellFormed(s: Store, v: Vertex)
    requires s.WellFormed()
    ensures AddVertex(s, v).WellFormed()
  {
    AddVertexKeepsRangesFit(s, v);
    AddVertexKeepsPointRunsApart(s, v);
    var t' := AddVertex(s, v).tables;
    assert t'.faces == s.tables.faces && t'.edges == s.tables.edges;
  }

  /** One record keeps the store well formed: its fresh rows start at the old
      array ends, past every range already stored. */
  lemma AddRecordKeepsWellFormed(s: Store, e: BRepEntity)
    requires s.WellFormed()
    ensures AddRecord(s, e).0.WellFormed()
  {
    match e
    case FaceEntity(f) => AddFaceKeepsWellFormed(s, f);
    case EdgeEntity(ed) => AddEdgeKeepsWellFormed(s, ed);
    case VertexEntity(v) => AddVertexKeepsWellFormed(s, v);
    case AssemblyEntity(a) => WellFormedDependsOnRanges(s, AddAssembly(s, a));
    case PartEntity(p) => WellFormedDependsOnRanges(s, AddPart(s, p));
    case BodyEntity(b) => WellFormedDependsOnRanges(s, AddBody(s, b));
    case UnknownEntity =>
  }

  lemma {:induction false} IngestKeepsWellFormed(s: Store, es: seq<BRepEntity>)
    requires s.WellFormed()
    ensures IngestAll(s, es).0.WellFormed()
    decreases |es|
  {
    if es != [] {
      IngestKeepsWellFormed(s, es[..|es| - 1]);
      AddRecordKeepsWellFormed(IngestAll(s, es[..|es| - 1]).0, es[|es| - 1]);
    }
  }

  lemma AddRecordKeepsUnderived(s: Store, e: BRepEntity)
    requires Underived(s.tables)
    ensures Underived(AddRecord(s, e).0.tables)
  {
    match e
    case AssemblyEntity(a) =>
    case PartEntity(p) =>
    case BodyEntity(b) =>
    case FaceEntity(f) =>
    case EdgeEntity(ed) =>
    case VertexEntity(v) =>
    case UnknownEntity =>
  }

  /** Populating fills in no derived list and no shell: bodies' shell lists
      stay empty and the shell table stays empty. */
  lemma {:induction false} IngestKeepsUnderived(s: Store, es: seq<BRepEntity>)
    requires Underived(s.tables)
    ensures Underived(IngestAll(s, es).0.tables)
    decreases |es|
  {
    if es != [] {
      IngestKeepsUnderived(s, es[..|es| - 1]);
      AddRecordKeepsUnderived(IngestAll(s, es[..|es| - 1]).0, es[|es| - 1]);
    }
  }

  /** The slot of the last record for it ends as that record left it, and the
      arrays end as an extension of the arrays just after it. */
  lemma SlotSettled(s: Store, es: seq<BRepEntity>, i: nat)
    requires LastFor(es, i)
    ensures var before := IngestAll(s, es[..i]).0;
            var mid := AddRecord(before, es[i]).0;
            var r := IngestAll(s, es).0;
      EntryAt(r.tables, SlotOf(es[i])) == EntryAt(mid.tables, SlotOf(es[i])) && Extends(r.arrays, mid.arrays)
  {
    LastWriteWins(s, es, i);
    assert es[..i + 1][..i] == es[..i];
    var mid := IngestAll(s, es[..i + 1]).0;
    IngestSplits(s, es, i + 1);
    IngestAppendsGeometry(mid, es[i + 1..]);
    AppendAllExtends(mid.arrays, es[i + 1..]);
  }

  /** The rows right after a prefix are the rows that extended it. */
  lemma SliceAfterPrefix<T>(x: seq<T>, pre: seq<T>, rows: seq<T>)
    requires |pre| + |rows| <= |x| && x[..|pre| + |rows|] == pre + rows
    ensures x[|pre| .. |pre| + |rows|] == rows
  {
    assert forall i :: 0 <= i < |rows| ==> x[..|pre| + |rows|][|pre| + i] == rows[i];
  }

  /** Ingest-then-query for an assembly: its part list comes back as handles. */
  lemma AssemblyRoundTrip(s: Store, es: seq<BRepEntity>, i: nat)
    requires LastFor(es, i) && es[i].AssemblyEntity?
    ensures var r := IngestAll(s, es).0; var a := es[i].assembly;
      Handle(a.id) in r.tables.assemblies && r.tables.assemblies[Handle(a.id)].parts == ToHandles(a.parts)
  {
    SlotSettled(s, es, i);
  }

  /** Ingest-then-query for a part: `partBodies` gives its body list back. */
  lemma PartRoundTrip(s: Store, es: seq<BRepEntity>, i: nat)
    requires LastFor(es, i) && es[i].PartEntity?
    ensures var r := IngestAll(s, es).0; var p := es[i].part;
      Handle(p.id) in r.tables.parts && r.PartBodies(Handle(p.id)) == ToHandles(p.bodies)
  {
    SlotSettled(s, es, i);
  }

  /** Ingest-then-query for a body: `bodyFaces` gives its face list back. */
  lemma BodyRoundTrip(s: Store, es: seq<BRepEntity>, i: nat)
    requires LastFor(es, i) && es[i].BodyEntity?
    ensures var r := IngestAll(s, es).0; var b := es[i].body;
      Handle(b.id) in r.tables.bodies && r.BodyFaces(Handle(b.id)) == ToHandles(b.faces)
  {
    SlotSettled(s, es, i);
  }

  /** The entry of the last face record for its slot, and the arrays around it. */
  lemma FaceSettled(s: Store, es: seq<BRepEntity>, i: nat)
    requires LastFor(es, i) && es[i].FaceEntity?
    ensures var before := IngestAll(s, es[..i]).0; var r := IngestAll(s, es).0;
            var f := es[i].face; var h: FaceHandle := Handle(f.id);
      && h in r.tables.faces && r.tables.faces[h] == NewFaceData(before.arrays, before.counter, f)
      && Extends(r.arrays, AddFace(before, f).arrays)
  {
    SlotSettled(s, es, i);
  }

  /** The rows a face record appended are still its rows in any extension of
      the arrays its populator left. */
  lemma FaceRowsRoundTrip(before: Store, f: Face, r: Store)
    requires r.RangesFit()
    requires Handle(f.id) in r.tables.faces
    requires r.tables.faces[Handle(f.id)] == NewFaceData(before.arrays, before.counter, f)
    requires Extends(r.arrays, AddFace(before, f).arrays)
    ensures var h: FaceHandle := Handle(f.id);
      && r.FaceEdges(h) == ToHandles(f.edges)
      && r.FaceGeometry(h) == (f.surface.points, f.surface.triangles)
      && var d := r.tables.faces[h];
         r.arrays.faceParams[d.paramStart .. d.paramStart + d.paramSize] == f.surface.parameters
  {
    var b := before.arrays;
    var sf := f.surface;
    var m := AddFace(before, f).arrays;
    assert m.points == b.points + sf.points && m.facets == b.facets + sf.triangles;
    assert m.faceParams == b.faceParams + sf.parameters;
    SliceAfterPrefix(r.arrays.points, b.points, sf.points);
    SliceAfterPrefix(r.arrays.facets, b.facets, sf.triangles);
    SliceAfterPrefix(r.arrays.faceParams, b.faceParams, sf.parameters);
  }

  /** Ingest-then-query for a face: `faceEdges` gives its edge list back and
      `faceGeometry` its own points and triangles; its parameter rows are
      stored as given. */
  lemma FaceRoundTrip(s: Store, es: seq<BRepEntity>, i: nat)
    requires s.WellFormed()
    requires LastFor(es, i) && es[i].FaceEntity?
    ensures IngestAll(s, es).0.RangesFit()
    ensures var r := IngestAll(s, es).0; var f := es[i].face; var h: FaceHandle := Handle(f.id);
      && h in r.tables.faces
      && r.FaceEdges(h) == ToHandles(f.edges)
      && r.FaceGeometry(h) == (f.surface.points, f.surface.triangles)
      && var d := r.tables.faces[h];
         r.arrays.faceParams[d.paramStart .. d.paramStart + d.paramSize] == f.surface.parameters
  {
    IngestKeepsWellFormed(s, es);
    FaceSettled(s, es, i);
    FaceRowsRoundTrip(IngestAll(s, es[..i]).0, es[i].face, IngestAll(s, es).0);
  }

  /** The entry of the last edge record for its slot, and the arrays around it. */
  lemma EdgeSettled(s: Store, es: seq<BRepEntity>, i: nat)
    requires LastFor(es, i) && es[i].EdgeEntity?
    ensures var before := IngestAll(s, es[..i]).0; var r := IngestAll(s, es).0;
            var ed := es[i].edge; var h: EdgeHandle := Handle(ed.id);
      && h in r.tables.edges && r.tables.edges[h] == NewEdgeData(before.arrays, ed)
      && Extends(r.arrays, AddEdge(before, ed).arrays)
  {
    SlotSettled(s, es, i);
  }

  /** The rows an edge record appended are still its rows in any extension of
      the arrays its populator left. */
  lemma EdgeRowsRoundTrip(before: Store, ed: Edge, r: Store)
    requires r.RangesFit()
    requires Handle(ed.id) in r.tables.edges && r.tables.edges[Handle(ed.id)] == NewEdgeData(before.arrays, ed)
    requires Extends(r.arrays, AddEdge(before, ed).arrays)
    ensures var h: EdgeHandle := Handle(ed.id);
      && r.StartVertex(h) == EndpointHandle(ed.start)
      && r.EndVertex(h) == EndpointHandle(ed.end)
      && r.EdgeGeometry(h) == ed.curve.points
      && var d := r.tables.edges[h];
         r.arrays.edgeParams[d.paramStart .. d.paramStart + d.paramSize] == ed.curve.parameters
  {
    var b := before.arrays;
    var c := ed.curve;
    SliceAfterPrefix(r.arrays.points, b.points, c.points);
    SliceAfterPrefix(r.arrays.edgeParams, b.edgeParams, c.parameters);
  }

  /** Ingest-then-query for an edge: `startVertex` and `endVertex` give its
      endpoints back (a negative one as the invalid handle) and `edgeGeometry`
      its own points; its parameter rows are stored as given. */
  lemma EdgeRoundTrip(s: Store, es: seq<BRepEntity>, i: nat)
    requires s.WellFormed()
    requires LastFor(es, i) && es[i].EdgeEntity?
    ensures IngestAll(s, es).0.RangesFit()
    ensures var r := IngestAll(s, es).0; var ed := es[i].edge; var h: EdgeHandle := Handle(ed.id);
      && h in r.tables.edges
      && r.StartVertex(h) == EndpointHandle(ed.start)
      && r.EndVertex(h) == EndpointHandle(ed.end)
      && r.EdgeGeometry(h) == ed.curve.points
      && var d := r.tables.edges[h];
         r.arrays.edgeParams[d.paramStart .. d.paramStart + d.paramSize] == ed.curve.parameters
  {
    IngestKeepsWellFormed(s, es);
    EdgeSettled(s, es, i);
    EdgeRowsRoundTrip(IngestAll(s, es[..i]).0, es[i].edge, IngestAll(s, es).0);
  }

  /** Ingest-then-query for a vertex: its point row holds its coordinates. */
  lemma VertexRoundTrip(s: Store, es: seq<BRepEntity>, i: nat)
    requires LastFor(es, i) && es[i].VertexEntity?
    ensures var r := IngestAll(s, es).0; var v := es[i].vertex; var h: VertexHandle := Handle(v.id);
      && h in r.tables.vertices
      && r.tables.vertices[h].pointIndex < |r.arrays.points|
      && r.arrays.points[r.tables.vertices[h].pointIndex] == v.point
  {
    SlotSettled(s, es, i);
    var before := IngestAll(s, es[..i]).0;
    var b := before.arrays.points;
    var v := es[i].vertex;
    var r := IngestAll(s, es).0;
    var h: VertexHandle := Handle(v.id);
    assert EntryAt(r.tables, VertexSlot(h)) == VertexEntry(VertexData(|b|, []));
    assert AddVertex(before, v).arrays.points == b + [v.point];
    assert r.arrays.points[..|b| + 1] == b + [v.point];
    assert r.arrays.points[..|b| + 1][|b|] == v.point;
  }
}
