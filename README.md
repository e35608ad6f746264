# brep: a verified model of the B-Rep store and the export helpers

This project models two parts of the `brep` repository:

- **The C++ boundary-representation store `padt::brep::BRep`.** It ingests a stream of
  protobuf `BRepEntity` records (assembly, part, body, face, edge, vertex) into hash tables
  keyed by typed integer handles. Each record's geometry rows go onto the ends of shared
  point, triangle and parameter arrays. A bottom-up pass then derives the incidence lists:
  vertex to edges, edge to faces, face to bodies, and each body's edges and vertices.
  Axis-aligned bounding boxes are computed on demand and cached.
- **Three helpers of the ANSYS Mechanical exporter.** `Chunk` and `SplitToArray` cut a
  sequence into pieces of a fixed size. `ConvertANSYSFacetListToDMesh` decodes ANSYS's
  packed facet list into triangle indices.

Modules, one concept each:

| file | module | what it holds |
|---|---|---|
| `handles.dfy` | `Handles` | typed handles (`BaseHandle` and its kinds), validity, order, hash |
| `geometry.dfy` | `Geometry` | points, `AlignedBox3d` as `Box`, `extend`, the box of a point slice |
| `records.dfy` | `Records` | the protobuf records of the entity stream |
| `brep_model.dfy` | `BRepModel` | the store as a value: tables, arrays, counter; the accessors; the populators `add*` as functions |
| `handle_sets.dfy` | `HandleSets` | the ascending listing of a `std::set` of handles |
| `derivation.dfy` | `Derivation` | what `buildBottomUpTopology` computes, and its laws |
| `ingest_laws.dfy` | `IngestLaws` | laws of the populating pass: counter, last write wins, append-only arrays, well-formedness, ingest-then-query round trips |
| `box_model.dfy` | `BoundingBoxes` | the five `boundingBox` overloads as functions, and their tightness and union laws |
| `brep.dfy` | `BRepStore` | the imperative store: class `BRep` with the source's fields and methods, the derivation phases as loops over maps, the cached box computations |
| `utilities.dfy` | `Utilities` | `Chunk`, `SplitToArray` and `ConvertANSYSFacetListToDMesh` with their reference definitions |

The class `BRepStore.BRep` has the source's fields:
- eight tables as `map`s;
- the four geometry arrays as `seq`s;
- the counter `generatedHandleId`;
- five box caches as `map`s.

Each method states its new state by a function of the old state (`Model()`), and the laws
about those functions are lemmas. The derivation pass is imperative, as in the source: one
loop builds a map of sets and a second loop appends each set in ascending order. Its
contract ties the result to `Derivation.Derived` (a completed run) or to
`Derivation.PartiallyDerived` (a run stopped by `std::out_of_range` from `at()`).

Some details follow the code rather than the header's comments:

- `addBody` builds each shell's face list and then drops it. Bodies' shell lists and the
  shell table therefore stay empty (`IngestLaws.IngestKeepsUnderived`).
- `reset` clears the tables and caches but not the geometry arrays. A rebuild on a used
  store appends after the old rows, and every stored start is an absolute row number
  (`BRepModel.Prepared` keeps the arrays).
- The counter is set to one past the largest identifier, and generation pre-increments. The
  first generated loop handle is therefore that maximum plus two.
- The C# converter raises its invalid-data exception whenever a facet record's count is not
  3, although its message speaks only of counts above 3.
- The derived lists are appended to, never cleared. A second `buildBottomUpTopology`
  therefore lists everything twice (`Derivation.DerivingTwiceDuplicates`).

## Model

| member | source | states |
|---|---|---|
| Handles.Handle.Reset | include/padt/brep/handle.h:12 | the handle afterwards holds the sentinel -1 and is invalid |
| Handles.Handle.Invalidate | include/padt/brep/handle.h:13 | `invalidate` has the same effect as `reset` |
| Handles.Handle.Hash | include/padt/brep/handle.h:22-25 | `HandleHash` is the index converted to `size_t`, so its value lies in [0, 2^64) |
| Handles.DefaultIsInvalid | include/padt/brep/handle.h:9-10 | the default handle has index -1 and is invalid; a handle is valid iff it differs from the default one |
| Handles.ConstructorKeepsIndex | include/padt/brep/handle.h:31-69 | every kind's constructor keeps its argument as the index |
| Handles.ResetIsIdempotent | include/padt/brep/handle.h:12-13 | reset and invalidate agree, leave the handle invalid, and a second application changes nothing |
| Handles.ComparisonsFollowIndex | include/padt/brep/handle.h:14-16 | `==`, `!=` and `<` coincide with the integer relations on the index, so `<` is a strict total order |
| Handles.HashIsInjectiveOnInt32 | include/padt/brep/handle.h:22-25 | equal handles hash equally, and on the 32-bit `int` range distinct handles hash differently |
| Geometry.Extend | src/brep.cpp:345-349 | `extend` gives a box holding both operands; the empty box is its unit on either side |
| Geometry.CornersBoundPoints | src/brep.cpp:413-416 | the min and max corners of a non-empty point slice bound every point of it |
| Geometry.MinCornerAttained | src/brep.cpp:414 | each coordinate of the `minCoeff` corner is attained by some point of the slice |
| Geometry.MaxCornerAttained | src/brep.cpp:415 | each coordinate of the `maxCoeff` corner is attained by some point of the slice |
| Geometry.BoxOfPointsIsTight | src/brep.cpp:413-416 | the box of a point slice holds every point, and all six corner coordinates are attained |
| Geometry.BoxOfPointsIsLeast | src/brep.cpp:413-416 | any box holding every point of the slice contains the computed box |
| Geometry.ContainsIsPreorder | src/brep.cpp:345-349 | box containment is reflexive and transitive |
| Geometry.ExtendIsSemilattice | src/brep.cpp:343-349 | `extend` is commutative, associative and idempotent, with the empty box as unit, so folding order does not matter |
| Geometry.ExtendIsLeast | src/brep.cpp:345-349 | `extend` is the least upper bound for containment |
| Geometry.ExtendAllContainsEach | src/brep.cpp:343-349 | an `accumulate` of `extend` holds its start and every box folded in |
| Geometry.ExtendAllIsLeast | src/brep.cpp:343-349 | the fold is the least box holding its start and every folded box |
| Geometry.ExtendAllIsEmptyIff | src/brep.cpp:343-349 | the fold from the empty box is empty iff every folded box is empty |
| BRepModel.Store.StartVertex | include/padt/brep/brep.h:55-60 | an unknown edge gives the invalid vertex handle |
| BRepModel.Store.EndVertex | include/padt/brep/brep.h:62-67 | an unknown edge gives the invalid vertex handle |
| BRepModel.Store.FaceEdges | include/padt/brep/brep.h:69-74 | an unknown face gives the empty list |
| BRepModel.Store.BodyFaces | include/padt/brep/brep.h:75-80 | an unknown body gives the empty list |
| BRepModel.Store.PartBodies | include/padt/brep/brep.h:81-86 | an unknown part gives the empty list |
| BRepModel.Store.FaceGeometry | include/padt/brep/brep.h:88-108 | an unknown face gives two empty blocks; a known face gives blocks of its stored point and facet sizes |
| BRepModel.Store.EdgeGeometry | include/padt/brep/brep.h:110-121 | an unknown edge gives an empty block; a known edge gives a block of its stored point size |
| BRepModel.ToHandles | src/brep.cpp:129-132 | `std::transform` of identifiers into handles keeps the length |
| BRepModel.LoopRun | src/brep.cpp:203-211 | a face with n loops gets n generated loop handles |
| BRepModel.EndpointHandle | src/brep.cpp:239-241 | an edge endpoint is a valid handle iff its identifier is non-negative |
| BRepModel.AddAssembly | src/brep.cpp:127-134 | definition: the assembly slot of the record's identifier is replaced by its part identifiers as handles; nothing else changes |
| BRepModel.AddPart | src/brep.cpp:136-143 | definition: the part slot is replaced by its body identifiers as handles; nothing else changes |
| BRepModel.AddBody | src/brep.cpp:145-160 | definition: the body slot is replaced by its face handles, with empty shell, edge and vertex lists |
| BRepModel.NewFaceData | src/brep.cpp:165-212 | definition: a face entry records its edge handles, its generated loop handles, and the old row counts as the starts of its point, triangle and parameter runs with the record's sizes |
| BRepModel.AddLoops | src/brep.cpp:203-211 | definition: the face's loops, in order, go into the loop table under the handles counter+1, counter+2, ... |
| BRepModel.AddFace | src/brep.cpp:162-214 | definition: the face slot gets `NewFaceData`, its loops are added, its rows are appended to the three arrays, and the counter grows by the loop count |
| BRepModel.NewEdgeData | src/brep.cpp:216-243 | definition: an edge entry records its endpoint handles and the old row counts as the starts of its point and parameter runs |
| BRepModel.AddEdge | src/brep.cpp:216-245 | definition: the edge slot gets `NewEdgeData` and its rows are appended to the point and curve-parameter arrays |
| BRepModel.AddVertex | src/brep.cpp:247-256 | definition: the vertex slot records the old point count as its row, and its point is appended |
| BRepModel.AddRecord | src/brep.cpp:109-126 | definition: dispatch on the record's kind to its populator with success; an unknown record leaves the store as it was and fails |
| BRepModel.IngestAll | src/brep.cpp:80-82 | definition: every record is added in stream order and the per-record results are AND-ed; laws in `IngestLaws` |
| BRepModel.MaxKnownId | src/brep.cpp:87-107 | definition: -1 folded with `max` over the identifiers of the known records; maximality is `IngestLaws.MaxKnownIdIsMaximum` |
| BRepModel.Prepared | src/brep.cpp:33-48 | definition: after `reset` and `resetGeneratedHandleId` the tables are empty, the arrays are kept, and the counter is `MaxKnownId` + 1 |
| BRepModel.Ingested | src/brep.cpp:75-82 | definition: `IngestAll` from the `Prepared` store, which is the populating pass of `buildBRepFromEntityStream` |
| HandleSets.LeastExists | src/brep.cpp:275-277 | a non-empty finite set of handles has exactly one least element, which is where a `std::set` starts |
| HandleSets.InOrder | src/brep.cpp:275-277 | the listing of a `std::set` is ascending, holds exactly the set's elements, and has the set's size |
| HandleSets.CopyInOrder | src/brep.cpp:275-277 | the loop copying a set into a vector yields the ascending listing |
| HandleSets.AscendingIsUnique | src/brep.cpp:275-277 | two ascending sequences with the same elements are equal |
| HandleSets.InOrderIsTheAscendingListing | src/brep.cpp:275-277 | any ascending listing of a set is the one a `std::set` iterates |
| Derivation.Derived | src/brep.cpp:258-326 | definition: a completed run gives each vertex, edge and face its incidence listing and each body its edge and vertex listings, leaving all else unchanged; laws in the `Derivation` rows below |
| Derivation.PartiallyDerived | src/brep.cpp:258-326 | definition: after a throw, the three incidence phases are complete and the top-down fields unchanged; each body is untouched, has only its edge listing appended, or is fully derived |
| Derivation.Endpoints | src/brep.cpp:267-278 | a vertex is an endpoint of an edge iff it is valid and is the edge's start or end |
| Derivation.PartiallyDerivedKeepsTopDown | src/brep.cpp:301-323 | a throw from the body phase leaves every top-down field unchanged |
| Derivation.SameTopDownIsReflexive | src/brep.cpp:258-326 | agreeing on the top-down fields is reflexive |
| Derivation.SameTopDownIsSymmetric | src/brep.cpp:258-326 | agreeing on the top-down fields is symmetric |
| Derivation.SameTopDownIsTransitive | src/brep.cpp:258-326 | agreeing on the top-down fields is transitive |
| Derivation.IncidenceKeepsTopDown | src/brep.cpp:267-298 | the vertex, edge and face phases change only derived lists |
| Derivation.DerivationKeepsTopDown | src/brep.cpp:258-326 | a completed `buildBottomUpTopology` changes only derived lists |
| Derivation.SameTopDownSameIncidence | src/brep.cpp:267-278 | tables with the same top-down fields give every vertex the same incident edges |
| Derivation.SameTopDownSameAdjacency | src/brep.cpp:280-288 | tables with the same top-down fields give every edge the same adjacent faces |
| Derivation.SameTopDownSameOwners | src/brep.cpp:290-298 | tables with the same top-down fields give every face the same owning bodies |
| Derivation.SameTopDownSameBodySets | src/brep.cpp:301-323 | tables with the same top-down fields give a body the same edge and vertex sets and the same lookup outcome |
| Derivation.SameTopDownSameSets | src/brep.cpp:258-326 | tables with the same top-down fields give all the same derived sets and the same overall lookup outcome |
| Derivation.SameTopDownSamePointRuns | src/brep.cpp:162-256 | changing derived lists keeps point rows unshared between owners |
| Derivation.SameTopDownSameFaceRuns | src/brep.cpp:162-214 | changing derived lists keeps triangle and surface-parameter rows unshared between faces |
| Derivation.SameTopDownSameEdgeRuns | src/brep.cpp:216-245 | changing derived lists keeps curve-parameter rows unshared between edges |
| Derivation.DerivationKeepsWellFormed | src/brep.cpp:258-326 | either outcome of the derivation keeps a well-formed store well formed |
| Derivation.SameTopDownKeepsWellFormed | src/brep.cpp:258-326 | any change confined to derived lists keeps a store well formed |
| Derivation.VertexEdgesInvertEndpoints | src/brep.cpp:267-278 | after derivation, a vertex's new edge list is the ascending listing of exactly the table edges with it as a valid endpoint |
| Derivation.EdgeFacesInvertFaceEdges | src/brep.cpp:280-288 | after derivation, an edge's new face list is the ascending listing of exactly the faces listing it |
| Derivation.FaceBodiesInvertBodyFaces | src/brep.cpp:290-298 | after derivation, a face's new body list is the ascending listing of exactly the bodies listing it |
| Derivation.BodyListsAreUnions | src/brep.cpp:301-323 | a body's edges are the union of its faces' edge lists, and its vertices are the valid endpoints of those edges |
| Derivation.BodyEdgesReachBody | src/brep.cpp:301-323 | every edge of a body lists, after derivation, a face that lists the body |
| Derivation.BodyVerticesReachEdges | src/brep.cpp:301-323 | every known vertex of a body lists one of the body's edges |
| Derivation.DerivedVertex | src/brep.cpp:267-278 | what a completed run stores for a vertex |
| Derivation.DerivedEdge | src/brep.cpp:280-288 | what a completed run stores for an edge |
| Derivation.DerivedFace | src/brep.cpp:290-298 | what a completed run stores for a face |
| Derivation.DerivedBody | src/brep.cpp:301-323 | what a completed run stores for a body |
| Derivation.RederivedVertex | src/brep.cpp:267-278 | a second run appends the same incident-edge listing again |
| Derivation.RederivedEdge | src/brep.cpp:280-288 | a second run appends the same adjacent-face listing again |
| Derivation.RederivedFace | src/brep.cpp:290-298 | a second run appends the same owning-body listing again |
| Derivation.RederivedBody | src/brep.cpp:301-323 | a second run appends the same body edge and vertex listings again |
| Derivation.VertexListsDuplicate | src/brep.cpp:267-278 | after two runs a vertex's edge list is the first run's list twice |
| Derivation.EdgeListsDuplicate | src/brep.cpp:280-288 | after two runs an edge's face list is the first run's list twice |
| Derivation.FaceListsDuplicate | src/brep.cpp:290-298 | after two runs a face's body list is the first run's list twice |
| Derivation.BodyListsDuplicate | src/brep.cpp:301-323 | after two runs a body's edge and vertex lists are the first run's lists twice |
| Derivation.DerivingTwiceDuplicates | src/brep.cpp:258-326 | derived lists are appended to, never replaced: after a second run every derived list holds the first run's list twice |
| IngestLaws.MaxKnownIdIsMaximum | src/brep.cpp:87-107 | the running maximum is -1 or the identifier of a known record, and no known record's identifier exceeds it |
| IngestLaws.NoKnownRecordGivesZero | src/brep.cpp:87-107 | with no known record the counter starts at 0 |
| IngestLaws.IngestSplits | src/brep.cpp:80-82 | ingesting a stream is ingesting a prefix and then the rest |
| IngestLaws.IngestSucceedsIffAllKnown | src/brep.cpp:79-82 | the AND of the per-record results is false exactly when some record has no known kind |
| IngestLaws.UnknownRecordIsSkipped | src/brep.cpp:109-126 | an unknown record neither stops nor alters later records: the result is that of the stream without it |
| IngestLaws.IngestCounter | src/brep.cpp:203-211 | the counter grows by exactly the number of loops ingested |
| IngestLaws.TotalLoopsOfPrefix | src/brep.cpp:203-211 | a stream's loop count is its prefix's plus the rest's |
| IngestLaws.AddLoopsKeys | src/brep.cpp:203-211 | after one face the loop table holds the old keys and the handles c+1 .. c+n |
| IngestLaws.LoopsFromChains | src/brep.cpp:203-211 | handles from (lo, mid] then (mid, hi] lie in (lo, hi] |
| IngestLaws.AddRecordLoops | src/brep.cpp:109-126 | one record generates loop handles only above the counter it finds |
| IngestLaws.IngestLoopHandlesInRange | src/brep.cpp:75-85 | every loop handle after ingestion was already there or was generated above the starting counter |
| IngestLaws.GeneratedHandlesExceedIds | src/brep.cpp:87-107 | after the populating pass every loop handle exceeds every known record's identifier |
| IngestLaws.LoopHandlesFollowStreamOrder | src/brep.cpp:203-211 | an earlier face record's loop handles are all below a later face record's |
| IngestLaws.AddRecordKeepsOtherSlots | src/brep.cpp:109-126 | a record leaves every table slot but its own unchanged |
| IngestLaws.PopulatorReplacesInFull | src/brep.cpp:127-256 | `Map_[h] = data` replaces a slot's entry in full, so a repeated identifier overwrites |
| IngestLaws.LastWriteWins | src/brep.cpp:80-82 | the final content of a slot is what the last record stored under it left there |
| IngestLaws.IngestAppendsGeometry | src/brep.cpp:165-196 | ingestion appends every record's rows in stream order and never touches an existing row |
| IngestLaws.PrefixOfPrefix | src/brep.cpp:165-196 | extension of the geometry arrays is transitive |
| IngestLaws.AppendAllExtends | src/brep.cpp:165-196 | appending rows never changes a row already there |
| IngestLaws.PointRunsApartAfterAppend | src/brep.cpp:165-174 | after appending points, every other owner keeps its run and the new run starts past every old one |
| IngestLaws.PointRunsFit | src/brep.cpp:165-174 | every stored point run ends inside the point array |
| IngestLaws.FaceUpdateKeepsOtherRuns | src/brep.cpp:212 | replacing one face keeps every other owner's point run |
| IngestLaws.EdgeUpdateKeepsOtherRuns | src/brep.cpp:216-245 | replacing one edge keeps every other owner's point run |
| IngestLaws.VertexUpdateKeepsOtherRuns | src/brep.cpp:247-256 | replacing one vertex keeps every other owner's point run |
| IngestLaws.WellFormedDependsOnRanges | src/brep.cpp:162-256 | well-formedness depends only on the face, edge and vertex tables and the arrays |
| IngestLaws.AddFaceKeepsRangesFit | src/brep.cpp:162-214 | after `addFace` every stored range still lies inside its array |
| IngestLaws.FaceRunsApartAfterAppend | src/brep.cpp:177-196 | a face whose runs start past every stored face's runs keeps the faces' runs apart |
| IngestLaws.AddFaceKeepsFaceRunsApart | src/brep.cpp:162-214 | `addFace` keeps triangle and surface-parameter rows unshared |
| IngestLaws.AddFaceKeepsPointRunsApart | src/brep.cpp:162-214 | `addFace` keeps point rows unshared between owners |
| IngestLaws.AddFaceKeepsWellFormed | src/brep.cpp:162-214 | `addFace` keeps the store well formed |
| IngestLaws.AddEdgeKeepsPointRunsApart | src/brep.cpp:216-245 | `addEdge` keeps point rows unshared between owners |
| IngestLaws.EdgeRunsApartAfterAppend | src/brep.cpp:216-245 | an edge whose parameter run starts past every stored one keeps edges' runs apart |
| IngestLaws.AddEdgeKeepsEdgeRunsApart | src/brep.cpp:216-245 | `addEdge` keeps curve-parameter rows unshared |
| IngestLaws.AddEdgeKeepsRangesFit | src/brep.cpp:216-245 | after `addEdge` every stored range still lies inside its array |
| IngestLaws.AddEdgeKeepsWellFormed | src/brep.cpp:216-245 | `addEdge` keeps the store well formed |
| IngestLaws.AddVertexKeepsRangesFit | src/brep.cpp:247-256 | after `addVertex` every stored range still lies inside its array |
| IngestLaws.AddVertexKeepsPointRunsApart | src/brep.cpp:247-256 | `addVertex` keeps point rows unshared between owners |
| IngestLaws.AddVertexKeepsWellFormed | src/brep.cpp:247-256 | `addVertex` keeps the store well formed |
| IngestLaws.AddRecordKeepsWellFormed | src/brep.cpp:109-126 | any one record keeps the store well formed |
| IngestLaws.IngestKeepsWellFormed | src/brep.cpp:80-82 | the populating pass keeps the store well formed |
| IngestLaws.AddRecordKeepsUnderived | src/brep.cpp:145-160 | one record fills in no derived list and no shell |
| IngestLaws.IngestKeepsUnderived | src/brep.cpp:151-157 | after populating, bodies' shell lists, the shell table and all derived lists are still empty |
| IngestLaws.SlotSettled | src/brep.cpp:80-82 | the last record for a slot leaves it as it ends, and the arrays end as an extension of those just after it |
| IngestLaws.SliceAfterPrefix | src/brep.cpp:165-196 | the rows right after a prefix are the rows that extended it |
| IngestLaws.AssemblyRoundTrip | src/brep.cpp:127-134 | ingest-then-query: the last assembly record's part list comes back as handles |
| IngestLaws.PartRoundTrip | include/padt/brep/brep.h:81-86 | ingest-then-query: `partBodies` gives the last part record's body list back |
| IngestLaws.BodyRoundTrip | include/padt/brep/brep.h:75-80 | ingest-then-query: `bodyFaces` gives the last body record's face list back |
| IngestLaws.FaceSettled | src/brep.cpp:162-214 | the entry of the last face record for its slot, and the arrays around it |
| IngestLaws.FaceRowsRoundTrip | src/brep.cpp:165-196 | a face record's rows stay its rows in any extension of the arrays |
| IngestLaws.FaceRoundTrip | include/padt/brep/brep.h:69-108 | ingest-then-query: `faceEdges` and `faceGeometry` give the last face record's edges, points and triangles back |
| IngestLaws.EdgeSettled | src/brep.cpp:216-245 | the entry of the last edge record for its slot, and the arrays around it |
| IngestLaws.EdgeRowsRoundTrip | src/brep.cpp:216-245 | an edge record's rows stay its rows in any extension of the arrays |
| IngestLaws.EdgeRoundTrip | include/padt/brep/brep.h:55-121 | ingest-then-query: endpoints (invalid when negative) and `edgeGeometry` give the last edge record back |
| IngestLaws.VertexRoundTrip | src/brep.cpp:247-256 | ingest-then-query: the last vertex record's point row holds its coordinates |
| BoundingBoxes.FaceBox | src/brep.cpp:406-419 | an unknown face's box is empty |
| BoundingBoxes.EdgeBox | src/brep.cpp:421-434 | an unknown edge's box is empty |
| BoundingBoxes.BodyBox | src/brep.cpp:380-404 | definition: an unknown body's box is empty; a known body's box is the fold of `extend` over its faces' boxes from the empty box |
| BoundingBoxes.PartBox | src/brep.cpp:354-378 | definition: an unknown part's box is empty; a known part's box is the fold over its bodies' boxes |
| BoundingBoxes.AssemblyBox | src/brep.cpp:328-352 | definition: an unknown assembly's box is empty; a known assembly's box is the fold over its parts' boxes |
| BoundingBoxes.FaceBoxes | src/brep.cpp:388-393 | the transform of a body's faces gives each face's box, in list order |
| BoundingBoxes.BodyBoxes | src/brep.cpp:362-367 | the transform of a part's bodies gives each body's box, in list order |
| BoundingBoxes.PartBoxes | src/brep.cpp:336-341 | the transform of an assembly's parts gives each part's box, in list order |
| BoundingBoxes.FaceBoxIsTight | src/brep.cpp:406-419 | a known face's box holds every point row of its slice, is the least such box, and its corners are attained |
| BoundingBoxes.EdgeBoxIsTight | src/brep.cpp:421-434 | a known edge's box holds every point row of its slice, is the least such box, and its corners are attained |
| BoundingBoxes.FoldIsLeastUpperBound | src/brep.cpp:343-349 | the fold from the empty box is the least box holding every folded box |
| BoundingBoxes.BodyBoxIsUnionOfFaces | src/brep.cpp:380-404 | a body's box holds each face's box, is the least such box, and is empty iff none of its faces is known |
| BoundingBoxes.PartBoxIsUnionOfBodies | src/brep.cpp:354-378 | a part's box holds each body's box and is the least such box |
| BoundingBoxes.AssemblyBoxIsUnionOfParts | src/brep.cpp:328-352 | an assembly's box holds each part's box and is the least such box |
| BoundingBoxes.BodyBoxHoldsFacePoints | src/brep.cpp:380-419 | every point row of every known face of a body lies in the body's box |
| BoundingBoxes.ContainsIsAntisymmetric | src/brep.cpp:345-349 | two boxes containing each other are equal |
| BoundingBoxes.FoldDependsOnlyOnElements | src/brep.cpp:343-349 | the order and multiplicity of children do not change a parent's box |
| BRepStore.Lookup | src/brep.cpp:276 | `operator[]` on a missing key reads as the empty set |
| BRepStore.ColwiseMin | src/brep.cpp:414 | the loop computes the component-wise minimum corner of a non-empty slice |
| BRepStore.ColwiseMax | src/brep.cpp:415 | the loop computes the component-wise maximum corner of a non-empty slice |
| BRepStore.Accumulate | src/brep.cpp:343-349 | the loop computes the fold of `extend` from the empty box |
| BRepStore.InsertAll | src/brep.cpp:281-283 | inserting into the set at each key adds the element exactly at those keys |
| BRepStore.InsertEndpoints | src/brep.cpp:268-273 | one edge is added exactly under its valid endpoints |
| BRepStore.VertexToEdges | src/brep.cpp:267-274 | the first map sends each vertex to exactly the table edges with it as a valid endpoint |
| BRepStore.EdgesToFaces | src/brep.cpp:280-284 | the second map sends each edge to exactly the faces listing it |
| BRepStore.FacesToBodies | src/brep.cpp:290-294 | the third map sends each face to exactly the bodies listing it |
| BRepStore.AppendVertexEdges | src/brep.cpp:275-278 | each vertex's list gets its set appended in ascending order; the key set is unchanged |
| BRepStore.AppendEdgeFaces | src/brep.cpp:285-288 | each edge's list gets its set appended in ascending order; the key set is unchanged |
| BRepStore.AppendFaceBodies | src/brep.cpp:295-298 | each face's list gets its set appended in ascending order; the key set is unchanged |
| BRepStore.CollectBodyEdges | src/brep.cpp:302-307 | succeeds iff every listed face is in the table, and then gives the union of their edge lists |
| BRepStore.CollectBodyVertices | src/brep.cpp:310-320 | succeeds iff every collected edge is in the table, and then gives their valid endpoints |
| BRepStore.AddEndpoints | src/brep.cpp:314-319 | the two guarded inserts add exactly the edge's valid endpoints |
| BRepStore.DeriveBody | src/brep.cpp:302-322 | one body iteration fails iff a lookup fails; on success the body gets its edge and vertex listings appended |
| BRepStore.DeriveBodyLists | src/brep.cpp:301-323 | the body phase throws iff some body's lookups fail; otherwise every body is derived, and after a throw the bodies are partly derived |
| BRepStore.DeriveIncidence | src/brep.cpp:267-298 | the first three phases give the incidence derivation and change no top-down field |
| BRepStore.DeriveVertexEdges | src/brep.cpp:267-278 | the vertex phase gives each vertex its incident edges appended |
| BRepStore.DeriveEdgeFaces | src/brep.cpp:280-288 | the edge phase gives each edge its adjacent faces appended |
| BRepStore.DeriveFaceBodies | src/brep.cpp:290-298 | the face phase gives each face its owning bodies appended |
| BRepStore.CachedFaceBox | src/brep.cpp:406-419 | returns the face's box; a known face's box is cached, and every cache entry stays correct |
| BRepStore.CachedEdgeBox | src/brep.cpp:421-434 | returns the edge's box; a known edge's box is cached, and every cache entry stays correct |
| BRepStore.CachedFaceBoxes | src/brep.cpp:388-393 | returns each face's box in order; the face cache only grows and stays correct |
| BRepStore.CachedBodyBox | src/brep.cpp:380-404 | returns the body's box; a known body's box is cached, and both caches stay correct |
| BRepStore.CachedBodyBoxes | src/brep.cpp:362-367 | returns each body's box in order; caches only grow and stay correct |
| BRepStore.CachedPartBox | src/brep.cpp:354-378 | returns the part's box; a known part's box is cached, and all caches stay correct |
| BRepStore.CachedPartBoxes | src/brep.cpp:336-341 | returns each part's box in order; caches only grow and stay correct |
| BRepStore.CachedAssemblyBox | src/brep.cpp:328-352 | returns the assembly's box; a known assembly's box is cached, and all caches stay correct |
| BRepStore.BuiltStoreWellFormed | src/brep.cpp:75-85 | whatever outcome derivation ends with, the built store is well formed |
| BRepStore.BRep.constructor | include/padt/brep/brep.h:28 | a new store has empty tables, arrays and caches |
| BRepStore.BRep.ClearTables | src/brep.cpp:34-41 | every table is empty afterwards |
| BRepStore.BRep.ClearCaches | src/brep.cpp:43-47 | every box cache is empty afterwards |
| BRepStore.BRep.Reset | src/brep.cpp:33-48 | tables and caches empty; arrays and counter unchanged |
| BRepStore.BRep.ResetGeneratedHandleId | src/brep.cpp:87-107 | the counter is one past the largest identifier of a known record |
| BRepStore.BRep.GenerateNewLoopHandle | include/padt/brep/brep.h:126-128 | pre-increments the counter and returns a handle with the new value |
| BRepStore.BRep.GenerateNewShellHandle | include/padt/brep/brep.h:129-131 | pre-increments the counter and returns a handle with the new value |
| BRepStore.BRep.GenerateNewAssemblyHandle | include/padt/brep/brep.h:132-134 | pre-increments the counter and returns a handle with the new value |
| BRepStore.BRep.AddAssembly | src/brep.cpp:127-134 | the new state is `BRepModel.AddAssembly` of the old one; reports success |
| BRepStore.BRep.AddPart | src/brep.cpp:136-143 | the new state is `BRepModel.AddPart` of the old one; reports success |
| BRepStore.BRep.AddBody | src/brep.cpp:145-160 | the new state is `BRepModel.AddBody` of the old one, with the shells dropped; reports success |
| BRepStore.BRep.AppendPoints | src/brep.cpp:165-174 | the point rows are the old rows followed by the new ones |
| BRepStore.BRep.AppendFacets | src/brep.cpp:177-186 | the triangle rows are the old rows followed by the new ones |
| BRepStore.BRep.AppendFaceParams | src/brep.cpp:188-196 | the surface-parameter rows are the old rows followed by the new ones |
| BRepStore.BRep.AppendEdgeParams | src/brep.cpp:229-237 | the curve-parameter rows are the old rows followed by the new ones |
| BRepStore.BRep.AddFaceLoops | src/brep.cpp:203-211 | one fresh handle per loop, in order; the counter grows by the loop count |
| BRepStore.BRep.NewFace | src/brep.cpp:165-211 | the rows are appended, the loops stored, and the entry records the old row counts as starts |
| BRepStore.BRep.AddFace | src/brep.cpp:162-214 | the new state is `BRepModel.AddFace` of the old one; reports success |
| BRepStore.BRep.AddEdge | src/brep.cpp:216-245 | the new state is `BRepModel.AddEdge` of the old one; reports success |
| BRepStore.BRep.AddVertex | src/brep.cpp:247-256 | the new state is `BRepModel.AddVertex` of the old one; reports success |
| BRepStore.BRep.AddBRepEntity | src/brep.cpp:109-126 | the new state and result are `AddRecord` of the old state: unknown records change nothing and fail |
| BRepStore.BRep.IngestStream | src/brep.cpp:80-82 | the new state and the AND of results are `IngestAll` of the old state |
| BRepStore.BRep.BuildBottomUpTopology | src/brep.cpp:258-326 | throws iff some body's lookups fail; otherwise the tables become `Derived` of the old ones, and after a throw a partial derivation |
| BRepStore.BRep.Populate | src/brep.cpp:75-82 | `reset`, `resetGeneratedHandleId` and the ingest loop give exactly the store and result of `Ingested`, with empty caches |
| BRepStore.BRep.BuiltValid | src/brep.cpp:75-85 | a store holding the rows and counter of `Ingested`, empty caches, and a completed or partial derivation of its tables is valid |
| BRepStore.BRep.BuildFromEntityStream | src/brep.cpp:75-85 | reset, reseed, ingest, derive: the arrays and counter are those of `Ingested`; the result is the AND of ingestion with derivation; the caches are empty and the store is valid |
| BRepStore.BRep.EmptyCachesValid | src/brep.cpp:75-85 | a well-formed store with empty caches is valid |
| BRepStore.BRep.FaceBoundingBox | src/brep.cpp:406-419 | on a valid store, returns the face's box and caches it; the store stays valid |
| BRepStore.BRep.EdgeBoundingBox | src/brep.cpp:421-434 | on a valid store, returns the edge's box and caches it; the store stays valid |
| BRepStore.BRep.BodyBoundingBox | src/brep.cpp:380-404 | on a valid store, returns the body's box and caches it; the store stays valid |
| BRepStore.BRep.PartBoundingBox | src/brep.cpp:354-378 | on a valid store, returns the part's box and caches it; the store stays valid |
| BRepStore.BRep.AssemblyBoundingBox | src/brep.cpp:328-352 | returns the assembly's box and caches it; all four caches stay correct |
| Utilities.Take | mechanical/BRepExport/BRepExport/Core/Utilities.cs:99 | LINQ `Take` yields min(n, length) elements, and none for n <= 0; `TakeSkip` fixes which ones |
| Utilities.Skip | mechanical/BRepExport/BRepExport/Core/Utilities.cs:100 | LINQ `Skip` leaves length - min(n, length) elements, and all of them for n <= 0 |
| Utilities.TakeSkip | mechanical/BRepExport/BRepExport/Core/Utilities.cs:99-100 | `Take(n)` followed by `Skip(n)` is the whole sequence |
| Utilities.SkipSkip | mechanical/BRepExport/BRepExport/Core/Utilities.cs:24 | skipping twice is skipping the sum, for non-negative counts |
| Utilities.Chunks | mechanical/BRepExport/BRepExport/Core/Utilities.cs:94-102 | reference definition: the first `Take(k)` followed by the chunks of `Skip(k)`, and nothing for an empty source |
| Utilities.Chunk | mechanical/BRepExport/BRepExport/Core/Utilities.cs:94-102 | the loop yields exactly the reference chunking of the source; an empty source yields nothing |
| Utilities.ChunkStalls | mechanical/BRepExport/BRepExport/Core/Utilities.cs:97-101 | with a chunk size of 0 or less a non-empty source makes no progress |
| Utilities.ChunksFlatten | mechanical/BRepExport/BRepExport/Core/Utilities.cs:94-102 | the chunks concatenate back to the source |
| Utilities.ChunkSizes | mechanical/BRepExport/BRepExport/Core/Utilities.cs:94-102 | every chunk has the chunk size except the last, which is non-empty and no longer |
| Utilities.ChunkCount | mechanical/BRepExport/BRepExport/Core/Utilities.cs:94-102 | the number of chunks is the ceiling of length over chunk size |
| Utilities.MoreArraysPositive | mechanical/BRepExport/BRepExport/Core/Utilities.cs:22 | with a positive size, the loop test holds iff i * size < length |
| Utilities.MoreArraysNegative | mechanical/BRepExport/BRepExport/Core/Utilities.cs:22 | with a negative size the loop test fails at once, so nothing is yielded |
| Utilities.PieceCountIs | mechanical/BRepExport/BRepExport/Core/Utilities.cs:20-26 | the number of pieces is the unique c with (c-1)*size < length <= c*size |
| Utilities.PieceCountBounds | mechanical/BRepExport/BRepExport/Core/Utilities.cs:22 | i < piece count iff i * size < length |
| Utilities.PieceCountIsCeiling | mechanical/BRepExport/BRepExport/Core/Utilities.cs:22 | the number of pieces is (length + size - 1) / size |
| Utilities.Split | mechanical/BRepExport/BRepExport/Core/Utilities.cs:20-26 | reference definition: piece i for each i below the piece count |
| Utilities.SplitToArray | mechanical/BRepExport/BRepExport/Core/Utilities.cs:20-26 | the loop yields exactly the reference split |
| Utilities.PieceIsSlice | mechanical/BRepExport/BRepExport/Core/Utilities.cs:24 | piece i is the slice from i*size to the lesser of (i+1)*size and the length |
| Utilities.SplitPieces | mechanical/BRepExport/BRepExport/Core/Utilities.cs:20-26 | the pieces are consecutive slices of the array, the count being the ceiling of length over size |
| Utilities.PieceShift | mechanical/BRepExport/BRepExport/Core/Utilities.cs:24 | piece i+1 of an array is piece i of the array after its first piece |
| Utilities.SplitUnfolds | mechanical/BRepExport/BRepExport/Core/Utilities.cs:20-26 | the split is the first piece followed by the split of the rest |
| Utilities.SplitIsChunks | mechanical/BRepExport/BRepExport/Core/Utilities.cs:20-102 | for a positive size `SplitToArray` and `Chunk` give the same pieces |
| Utilities.PrependTwice | mechanical/BRepExport/BRepExport/Core/Utilities.cs:71-79 | appending two triples in turn is appending their concatenation |
| Utilities.DecodeFrom | mechanical/BRepExport/BRepExport/Core/Utilities.cs:53-87 | reference definition: from entry i, a count other than 3 throws invalid data; a count-3 record that is cut short or names a missing position or normal throws out of range; otherwise its triple precedes the decoding of the rest |
| Utilities.Decode | mechanical/BRepExport/BRepExport/Core/Utilities.cs:43-89 | reference definition: `DecodeFrom` from entry 0 over the positions and normals grouped into vectors |
| Utilities.ConvertANSYSFacetListToDMesh | mechanical/BRepExport/BRepExport/Core/Utilities.cs:43-89 | the loop yields exactly the reference decoding, including its two error outcomes |
| Utilities.DecodedTriples | mechanical/BRepExport/BRepExport/Core/Utilities.cs:53-87 | an accepted list gives three indices per four-entry record, each triple taken from its record in the order the orientation test picks |
| Utilities.TripleReorders | mechanical/BRepExport/BRepExport/Core/Utilities.cs:71-79 | a triple taken either way holds the record's three indices |
| Utilities.DecodedIndices | mechanical/BRepExport/BRepExport/Core/Utilities.cs:53-87 | an accepted list yields, as a multiset, exactly the records' indices |
| Utilities.DecodeAccepts | mechanical/BRepExport/BRepExport/Core/Utilities.cs:53-87 | a list whose records all have count 3 and in-range indices is accepted |
| Utilities.DecodeRejectsCount | mechanical/BRepExport/BRepExport/Core/Utilities.cs:56-85 | a record with a count other than 3, preceded only by good records, gives the invalid-data outcome |
| Utilities.DecodeRejectsIndex | mechanical/BRepExport/BRepExport/Core/Utilities.cs:58-65 | a count-3 record that is cut short or names a missing position or normal, preceded only by good records, gives the index-out-of-range outcome |

## Left out

- Integer widths: handles, identifiers and row counts are unbounded integers. `int` overflow
  of the counter, the `static_cast<int>` of the `ptrdiff_t` maximum in
  `resetGeneratedHandleId`, and `Eigen::Index` limits are not modelled.
  `Handles.HashIsInjectiveOnInt32` states the hash only on the 32-bit range.
- Floating point: coordinates and parameters are exact reals, so `minCoeff`, `maxCoeff` and
  `extend` are exact.
- Utilities.ToVector3d: g3's `BufferUtil.ToVector3d` is not part of this model. It is taken
  to group the position array into consecutive triples, and a trailing remainder is dropped.
- Utilities.AlongNormal: the orientation test `(v1-v0)x(v2-v0) . n > 0` in double
  precision becomes a parameter of the decoder (`keepsOrder`). `AlongNormal` is one exact-real
  instance of it, and the decoding laws hold for any test.
- Utilities.SplitToArray: the loop test `i < (float)a.Length / size` is computed exactly. In
  single precision it differs for lengths above 2^24.
- Utilities.SplitToArray: with `size == 0` and a non-empty array the source loops for ever
  (the float quotient is infinite). A precondition excludes that case, which is named
  in `MoreArrays`.
- Utilities.Chunk: with a chunk size of 0 or less and a non-empty source, the source loops
  for ever. A precondition excludes that case, and `Utilities.ChunkStalls` proves that no
  progress is made there.
- Utilities.Chunk: LINQ's lazy, deferred evaluation (`IEnumerable` re-enumeration, `yield`)
  is modelled as eager sequences. The C# exceptions for a null argument are not modelled.
- The face and edge boxes of a known entity with no point rows are undefined behaviour in
  the source (`minCoeff` of an empty block). `FaceBoxDefined` and `EdgeBoxDefined` exclude
  them, and the body, part and assembly boxes inherit that precondition.
- Iteration order of `std::unordered_map` is unspecified. The derivation's results do not
  depend on it, because its maps hold `std::set`s, which are listed in ascending order.
  The one place where order shows is which failing body is met first when the body phase
  throws. `Derivation.PartiallyDerived` therefore allows any set of bodies to have been
  done.
- Derivation.PartiallyDerived: through `Derivation.PartialBodies` it allows any number of
  bodies to have their edge listing appended but not their vertex listing. In the source
  only the one body whose `Edges_.at` throws can be in that state (brep.cpp:302-320). The
  model does not state that at most one body is half done.
- The `EntityHandle` variant (handle.h:71-73) and `operator<<` (handle.h:27-29) are not
  modelled: nothing in the core uses the first, and the second is output.
- The copy and move constructors and assignments and the destructor (brep.h:29-33) are not
  modelled. A Dafny object is shared by reference.
- BRepStore.BRep.constructor: `BRep() = default` leaves the counter uninitialised, so
  nothing is stated about it.
- The key-range accessors `assemblies()` through `edges()` (brep.h:49-53) are the key sets
  `Topology().assemblies.Keys` and so on, and have no members of their own. The lookups
  `startVertex` through `edgeGeometry` are functions on the store value (`BRepModel`), not
  methods of the class.
- Eigen's `conservativeResize` leaves the new rows uninitialised until the loop overwrites
  them. `AppendPoints`, `AppendFacets`, `AppendFaceParams`, `AppendEdgeParams` and
  `AddVertex` model that resize-then-fill: they append placeholder rows of zeros and then
  overwrite them row by row. The placeholder value is never observed.
- BRepStore.BRep.FaceBoundingBox, BRepStore.BRep.EdgeBoundingBox, BRepStore.BRep.BodyBoundingBox,
  BRepStore.BRep.PartBoundingBox and BRepStore.BRep.AssemblyBoundingBox: these
  are stated over `old(Model())`. The tables and arrays do not change (`const` methods); only
  the `mutable` caches do.
- BRepStore.BRep.AssemblyBoundingBox: unlike the four other box methods, it does not require
  or ensure `Valid()`. It requires only the four caches it consults to be coherent, and
  ensures that those four stay coherent. The tables, the arrays and the edge cache are left
  untouched by its frame.
- `buildBRepFromFile`, protobuf parsing, `std::cerr` diagnostics and file I/O are left out.
  So are `utility.h`, `entityRange.h`, `apps/main.cpp`, the C# `Exporter.cs` and
  `RecentFolderDataStore.cs`, and the `layoutACTPackage.py` script, which are not part of
  this model.
