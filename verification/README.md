# poly2tri-c refinement core, topological model

This project models the topological core of the refinement layer of
poly2tri-c:
- the half-edge mesh (`P2trMesh`, `P2trEdge`, points and triangles) and its
  mutation primitives;
- virtual edges (`P2trVEdge`), the point-pair handles that survive edge
  deletion;
- the undo log of mesh actions (`P2trMeshAction`);
- the flip set and the flip-fix engine that restores the constrained
  Delaunay property;
- the CDT operations built on top of them: `validate_edges`, `split_edge`,
  `insert_point` and `insert_point_into_triangle`.

Every C handle becomes a natural-number id into an `Arena` of maps (points,
half-edges, triangles, virtual edges). The single mesh becomes three
membership sets over those ids. Removal from the mesh and deallocation are
kept apart, as in the C code.

The arena carries a structural invariant, `Meshes.Wf`:
- mirrors are involutions;
- each point's outgoing list is exactly the half-edges starting there;
- triangles chain AB, BC, CA head to tail;
- every side's back-link names its triangle.

`Meshes.Simple` adds that there are no loops and no parallel half-edges.

What the operations do to a mesh is stated through its `Shape`: the mesh
points, the set of half-edge signatures (start, end, constrained) and the
set of triangle signatures. Triangles and edges that are rebuilt with fresh
ids therefore compare equal when they join the same points.

Every geometric question the layer asks is put to a caller-supplied
`Geometry.Oracle`, and the model relies on nothing about the answers:
- a point in a triangle;
- a point strictly inside a segment;
- a point strictly inside a circumcircle.

The properties proved fall into these groups:
- **Reference counting.** Every handle taken is released (`RefThenUnref`,
  `NewThenReleaseAll`, the action balance lemmas). Every point holds at
  least the references that the live virtual edges took on it
  (`VEdges.RefsCover`).
- **Mesh primitives.** Each primitive keeps the invariant and changes the
  shape by exactly one pair of half-edges, one triangle or one point.
- **Undo log.** Undoing a recorded action restores the shape it was
  recorded on, and undoing a whole log restores the first shape.
- **Flip set.** The flip set never holds the same undirected edge twice.
  Adding a present edge leaves the set as it was, and popping removes
  exactly one key.
- **Flip-fix and the CDT operations.** Flip-fix and every CDT operation
  keep the invariant, the point set and the constrained segments, and keep
  "every edge is constrained or has a triangle on both sides". Flip-fix
  keeps the set of points attached to the triangulation (those some
  half-edge starts at) and the number of triangles. Inserting a point
  attaches it, and adds two triangles for a triangle split or one per
  triangle beside the edge for an edge split. An edge split replaces a
  constrained segment by its two constrained halves and hands those two
  parts back, referenced, to the caller.

## Model

| member | source | states |
|---|---|---|
| Points.FirstTo | poly2tri-c/refine/vedge.c:87-91 | the half-edge found is the first in the outgoing list that ends at the target; none is found exactly when no outgoing half-edge ends there |
| Points.EdgeTo | poly2tri-c/refine/vedge.c:107-111 | the edge-to lookup answers a half-edge leaving the start and ending at the end, and answers nothing exactly when no such half-edge leaves the start |
| Points.Ref | poly2tri-c/refine/vedge.c:59-60 | a point reference raises that point's count by one and leaves every other point and the rest of the arena alone |
| Points.Unref | poly2tri-c/refine/vedge.c:96-97 | a point unreference needs a held reference, lowers that point's count by one and leaves everything else alone |
| Points.RefThenUnref | poly2tri-c/refine/vedge.c:59-60 | taking and then dropping a point reference leaves the arena as it was |
| Edges.MirrorInvolution | refine/edge.h:16-20 | the mirror of the mirror is the half-edge itself, it is a different half-edge, its start and end are the original's end and start, and it carries the same constrained flag |
| Edges.SameLinksStart | refine/edge.h:42 | the start of a half-edge (its mirror's end) is read the same in any arena with the same mirror and end links |
| Edges.Ref | refine/edge.h:44 | an edge reference raises that half-edge's count by one and leaves every other half-edge and the rest of the arena alone |
| Edges.Unref | refine/edge.h:45 | an edge unreference requires a live count, lowers it by one and leaves everything else alone |
| Edges.RefThenUnref | refine/edge.h:44-45 | a reference followed by an unreference of the same half-edge is the identity |
| VEdges.New | poly2tri-c/refine/vedge.c:41-64 | a new virtual edge is fresh, holds the two points with count 1, and raises each point's count by the number of times it is an end; edges, triangles and the mesh are untouched |
| VEdges.New2 | poly2tri-c/refine/vedge.c:66-70 | the virtual edge made from a real half-edge runs from that half-edge's start (its mirror's end) to its end |
| VEdges.Ref | poly2tri-c/refine/vedge.c:72-77 | a virtual-edge reference raises only that virtual edge's count |
| VEdges.Unref | poly2tri-c/refine/vedge.c:79-85 | unreferencing needs a positive count; above one it only decrements; at one the virtual edge is freed and its points released; other virtual edges are untouched |
| VEdges.Free | poly2tri-c/refine/vedge.c:93-99 | freeing removes the virtual edge and drops one point reference for each of its ends, nothing else |
| VEdges.IsReal | poly2tri-c/refine/vedge.c:87-91 | the real half-edge found leaves the virtual start and ends at the virtual end; none exactly when no outgoing half-edge of the start reaches the end |
| VEdges.IsRealMatches | poly2tri-c/refine/vedge.c:87-91 | in a well-formed mesh, a virtual edge is real exactly when the mesh has a half-edge with those ends, and the one found is that mesh half-edge |
| VEdges.New2IsReal | poly2tri-c/refine/vedge.c:66-91 | a virtual edge made from a mesh half-edge is real and resolves back to that very half-edge |
| VEdges.GetMesh | poly2tri-c/refine/vedge.c:101-105 | the mesh of a virtual edge is the mesh of its end point: present exactly when that end belongs to the mesh |
| VEdges.Get | poly2tri-c/refine/vedge.c:107-111 | getting a real virtual edge returns its matching half-edge with one more reference and changes nothing else |
| VEdges.TryGetAndUnref | poly2tri-c/refine/vedge.h:73-83 | the result is true exactly when a matching half-edge exists; that half-edge gains one reference; the virtual edge loses one reference and is freed when that was its last |
| VEdges.NewThenReleaseAll | poly2tri-c/refine/vedge.c:51-99 | a new virtual edge referenced k more times and unreferenced k+1 times leaves the arena as before apart from the allocator |
| VEdges.FreeNew | poly2tri-c/refine/vedge.c:51-64 | freeing a fresh virtual edge restores every point count |
| VEdges.NewCover | poly2tri-c/refine/vedge.c:51-64 | creating a virtual edge keeps every point's count at least the number of live virtual edges ending on it |
| VEdges.UnrefCover | poly2tri-c/refine/vedge.c:79-99 | unreferencing (and possibly freeing) a virtual edge keeps that accounting |
| Meshes.Ref | poly2tri-c/refine/mesh.h:93-95 | a mesh reference raises the mesh count only |
| Meshes.Unref | poly2tri-c/refine/mesh.h:93 | a mesh unreference needs a held reference, lowers the mesh count by one and changes nothing else |
| Meshes.RefThenUnref | poly2tri-c/refine/mesh.h:41-48 | a mesh reference and unreference cancel, and referencing changes neither the invariant nor the shape |
| Meshes.NewPoint | poly2tri-c/refine/mesh.h:52-53 | a new point is fresh, has no outgoing half-edges, belongs to the mesh with one reference, and every existing point is untouched |
| Meshes.NewPointKeeps | poly2tri-c/refine/mesh.h:52-53 | adding a point keeps the invariant and simplicity and adds exactly that point to the shape |
| Meshes.OnPointRemoved | poly2tri-c/refine/mesh.h:80-81 | the point leaves the mesh's point set and its back-link to the mesh is cleared; every other point and the rest of the arena are untouched |
| Meshes.OnPointRemovedKeeps | poly2tri-c/refine/mesh.h:80-81 | removing an isolated point keeps the invariant and takes exactly that point out of the shape |
| Meshes.NewEdge | poly2tri-c/refine/mesh.h:59-62 | a new edge is a fresh pair of mirrored half-edges with the given flag, ending at the given points, registered in the mesh and both outgoing lists |
| Meshes.NewEdgeKeeps | poly2tri-c/refine/mesh.h:59-62 | adding an edge keeps the invariant, starts the returned half-edge at the given start, adds exactly the two signatures, and keeps simplicity when the edge did not exist |
| Meshes.EdgeToMatches | poly2tri-c/refine/mesh.h:64-73 | in a well-formed mesh the outgoing-list lookup finds a half-edge exactly when the mesh has one from start to end, and the one it finds runs between them |
| Meshes.EdgeToUnique | poly2tri-c/refine/mesh.h:64-73 | in a simple mesh looking up a half-edge's own ends finds that half-edge |
| Meshes.NewOrExistingEdge | poly2tri-c/refine/mesh.h:64-73 | when the edge exists, the existing half-edge is returned with one more reference; otherwise a new pair is made; either way the caller holds one reference |
| Meshes.NewOrExistingEdgeKeeps | poly2tri-c/refine/mesh.h:64-73 | the returned half-edge runs from start to end, and the shape is unchanged when the edge existed and otherwise gains just its two signatures |
| Meshes.OnEdgeRemoved | poly2tri-c/refine/mesh.h:83-84 | the half-edge and its mirror leave the mesh's edge set and nothing else changes |
| Meshes.RemoveEdge | poly2tri-c/refine/mesh.h:83-84 | removing a pair with no triangle on either side takes both halves out of the mesh; the records stay allocated, and points change only in their outgoing lists |
| Meshes.RemoveEdgeKeeps | poly2tri-c/refine/mesh.h:83-84 | removing a triangle-free edge keeps the invariant and takes exactly its two signatures out of the shape |
| Meshes.NewTriangle | poly2tri-c/refine/mesh.h:75-78 | a new triangle is fresh, joins the mesh, and becomes the back-link of exactly its three sides |
| Meshes.NewTriangleKeeps | poly2tri-c/refine/mesh.h:75-78 | adding a triangle on a free chain of sides keeps the invariant and simplicity |
| Meshes.NewTriangleShape | poly2tri-c/refine/mesh.h:75-78 | adding a triangle adds exactly its signature to the shape |
| Meshes.RemoveTriangle | poly2tri-c/refine/mesh.h:86-87 | removing a triangle takes it out of the mesh and clears the back-link of exactly its three sides |
| Meshes.RemoveTriangleKeeps | poly2tri-c/refine/mesh.h:86-87 | removing a triangle keeps the invariant and simplicity |
| Meshes.RemoveTriangleShape | poly2tri-c/refine/mesh.h:86-87 | removing a triangle takes exactly its signature out of the shape and leaves points and edges alone |
| Meshes.OnTriangleRemoved | poly2tri-c/refine/mesh.h:86-87 | the triangle leaves the mesh's triangle set and nothing else changes |
| Meshes.SideInOneTri | refine/edge.h:22-23 | in a simple mesh no directed side belongs to two triangles |
| Meshes.FindPointLocal | poly2tri-c/refine/mesh.h:97-118 | the triangle found contains the point, nothing is found exactly when no mesh triangle contains it, and a containing guess is returned as is |
| MeshActions.PointActionOf | poly2tri-c/refine/mesh-action.h:73-74 | a point action is tagged as a point, added or deleted as asked, has count 1, holds a reference on its point and resolves to that point |
| MeshActions.EdgeActionOf | poly2tri-c/refine/mesh-action.h:75-76 | an edge action records the edge as a fresh virtual edge plus its constrained flag, and resolves to the edge's start, end and flag |
| MeshActions.TriangleActionOf | poly2tri-c/refine/mesh-action.h:77-78 | a triangle action records the three corners and resolves to the triangle's signature |
| MeshActions.HoldThenRelease | poly2tri-c/refine/mesh-action.h:56-59 | holding and then releasing a virtual triangle's corners leaves the arena unchanged |
| MeshActions.Ref | poly2tri-c/refine/mesh-action.h:80 | an action reference raises its count by one and keeps its kind, flag and payload |
| MeshActions.Unref | poly2tri-c/refine/mesh-action.h:80-82 | unreferencing an action frees it exactly when the count was one, and otherwise only decrements it |
| MeshActions.RefThenUnref | poly2tri-c/refine/mesh-action.h:80-81 | a reference followed by an unreference gives back the same action |
| MeshActions.Free | poly2tri-c/refine/mesh-action.h:82 | freeing an action lets go of its point, virtual edge or corners, and leaves the half-edges, triangles, mesh and allocated points alone |
| MeshActions.PointActionBalance | poly2tri-c/refine/mesh-action.h:73-82 | creating a point action and unreferencing it once frees it and restores the arena |
| MeshActions.EdgeActionBalance | poly2tri-c/refine/mesh-action.h:75-82 | the same for an edge action, up to the allocator |
| MeshActions.TriangleActionBalance | poly2tri-c/refine/mesh-action.h:77-82 | the same for a triangle action |
| MeshActions.BackwardForward | poly2tri-c/refine/mesh-action.h:83-84 | on shapes, undoing an applicable change after applying it gives back the shape before |
| MeshActions.Undo | poly2tri-c/refine/mesh-action.h:83-84 | undo needs the state its inverse mutation needs and leaves the virtual edges and the allocated points alone; what it does to the shape is stated by MeshActions.UndoStep |
| MeshActions.UndoCounts | poly2tri-c/refine/mesh-action.h:83-84 | undo takes and drops no half-edge reference: every half-edge keeps its count, and a pair it recreates is held by the mesh alone, as the pairs the CDT operations build are |
| MeshActions.UndoStep | poly2tri-c/refine/mesh-action.h:83-84 | undoing an undoable action on a well-formed simple mesh keeps it well formed and simple and gives the shape before the change |
| MeshActions.UndoRecorded | poly2tri-c/refine/mesh-action.h:83-84 | undoing an action on any mesh with the shape it was recorded into restores the shape it was recorded from |
| MeshActions.UndoAll | poly2tri-c/refine/mesh-action.h:83-84 | undoing a whole recorded log, last action first, restores the first shape of the log |
| MeshActions.RecordNewPoint | poly2tri-c/refine/mesh-action.h:73 | the action for a new point is a recorded, undoable step of the mesh |
| MeshActions.RecordRemovePoint | poly2tri-c/refine/mesh-action.h:74 | the action for a removed isolated point is a recorded step |
| MeshActions.RecordNewEdge | poly2tri-c/refine/mesh-action.h:75 | the action for a new edge is a recorded step |
| MeshActions.RecordRemoveEdge | poly2tri-c/refine/mesh-action.h:76 | the action for a removed triangle-free edge is a recorded step |
| MeshActions.RecordNewTriangle | poly2tri-c/refine/mesh-action.h:77 | the action for a new triangle is a recorded step |
| MeshActions.RecordRemoveTriangle | poly2tri-c/refine/mesh-action.h:78 | the action for a removed triangle is a recorded step |
| FlipSets.UndirectedEqualsEnds | poly2tri-c/refine/cdt-flipfix.h:91-92 | two virtual edges are undirected-equal exactly when they join the same two points |
| FlipSets.UndirectedEquals | poly2tri-c/refine/cdt-flipfix.h:91-92 | two virtual edges are undirected-equal when they have the same ends in either order; FlipSets.UndirectedEqualsEnds proves this is equality of the end pairs |
| FlipSets.UndirectedHash | poly2tri-c/refine/cdt-flipfix.h:94 | the hash is a 32-bit value; FlipSets.HashAgrees proves that undirected-equal virtual edges share it |
| FlipSets.HashAgrees | poly2tri-c/refine/cdt-flipfix.h:91-94 | undirected-equal virtual edges hash alike |
| FlipSets.New | poly2tri-c/refine/cdt-flipfix.h:55 | a new flip set is empty |
| FlipSets.Add2 | poly2tri-c/refine/cdt-flipfix.h:64-69 | a virtual edge that is new to the set is appended and the set keeps its reference; one already present is dropped and unreferenced; either way the set keeps no duplicates and gains just that key |
| FlipSets.AddPresent | poly2tri-c/refine/cdt-flipfix.h:43-48 | adding a virtual edge whose key is already present leaves the set as it was |
| FlipSets.AddTwice | poly2tri-c/refine/cdt-flipfix.h:43-48 | after adding a virtual edge, adding the same edge in the other direction leaves the set as it is |
| FlipSets.Add | poly2tri-c/refine/cdt-flipfix.h:57-62 | adding a real edge spends the caller's edge reference and adds that edge's undirected key to the set, with the virtual edges already alive kept |
| FlipSets.AddCover | poly2tri-c/refine/cdt-flipfix.h:57-62 | adding a real edge keeps the point-reference accounting of virtual edges |
| FlipSets.Pop | poly2tri-c/refine/cdt-flipfix.h:71-76 | pop fails exactly on the empty set; otherwise it hands out one member and the rest is the set less that member |
| FlipSets.PopKeeps | poly2tri-c/refine/cdt-flipfix.h:71-76 | the popped virtual edge is alive, and its key leaves the set while the other keys remain |
| FlipSets.Next | poly2tri-c/refine/cdt-flipfix.h:71-76 | popping and resolving the next candidate removes exactly its key, keeps the accounting, and yields a mesh half-edge exactly when one joins the candidate's ends |
| Cdts.ValidateEdges | refine/cdt.h:34-39 | the validation passes exactly when every mesh half-edge is constrained or has a triangle on both sides |
| Cdts.EdgesValidShape | refine/cdt.h:34-39 | that validity, read on the arena, is the same as validity read on the shape |
| Cdts.ListedSides | refine/edge.h:16-23 | in a well-formed simple mesh every side of a triangle has a signature, every signature has one running the other way, and none is a loop |
| Cdts.SplitInThreeValid | refine/cdt.h:63-69 | splitting a triangle in three around a point keeps a valid shape valid, with the same points and constrained segments |
| Cdts.SplitInThreeAttached | refine/cdt.h:63-69 | splitting a triangle in three attaches exactly the new point to the triangulation |
| Cdts.SplitInThreeCount | refine/cdt.h:63-69 | splitting a triangle in three at a point attached to nothing adds exactly two triangles |
| Cdts.FlippedValid | poly2tri-c/refine/cdt-flipfix.h:84-88 | flipping an unconstrained diagonal between two triangles keeps a valid shape valid |
| Cdts.FlippedKeeps | poly2tri-c/refine/cdt-flipfix.h:84-88 | a flip changes neither the points nor the constrained segments |
| Cdts.FlippedAttached | poly2tri-c/refine/cdt-flipfix.h:84-88 | a flip attaches and detaches no point: the ends of the old diagonal keep their other sides |
| Cdts.FlippedCount | poly2tri-c/refine/cdt-flipfix.h:84-88 | a flip to a diagonal not yet present trades two triangles for two |
| Cdts.EdgeSplitConstrained | refine/cdt.h:71-78 | splitting an edge takes its two signatures out of the constrained set and, when it was constrained, puts in its four constrained halves |
| Cdts.EdgeSplitValid | refine/cdt.h:71-78 | splitting an edge that is constrained or has triangles on both sides keeps a valid shape valid |
| Cdts.EdgeSplitAttached | refine/cdt.h:71-78 | splitting an edge attaches exactly the new point to the triangulation |
| Cdts.EdgeSplitCount | refine/cdt.h:71-78 | splitting an edge at a point attached to nothing adds one triangle for each side of the edge that had one |
| Cdts.SplitTriangle | refine/cdt.h:63-69 | on the arena, a point isolated inside a triangle is joined to its three corners: the invariant holds and the shape is the triangle split in three |
| Cdts.SplitEdgeTriangles | refine/cdt.h:71-81 | on the arena, a point is put on an edge and the triangles on both sides are rebuilt around it; the two parts run start to point and point to end and keep the edge's flag |
| Cdts.Flip | poly2tri-c/refine/cdt-flipfix.h:84-88 | a flip replaces the shared side of two triangles by the diagonal joining their apexes; every other mesh half-edge stays, and the four outer sides are the new candidates |
| Cdts.FlipKept | poly2tri-c/refine/cdt-flipfix.h:84-88 | a flip keeps the points, the constrained segments, every constrained half-edge, validity, the points attached to the triangulation and the number of triangles |
| Cdts.Enqueue | poly2tri-c/refine/cdt-flipfix.h:57-62 | enqueuing candidate half-edges adds exactly their undirected keys to the flip set and changes nothing in the mesh |
| Cdts.Push | poly2tri-c/refine/cdt-flipfix.h:57-62 | pushing a half-edge keeps the flip set valid, leaves the half-edges, triangles and mesh as they were, and changes the points only in their reference counts |
| Cdts.PushKeys | poly2tri-c/refine/cdt-flipfix.h:57-62 | pushing a half-edge adds exactly its undirected key to the set |
| Cdts.FixOne | poly2tri-c/refine/cdt-flipfix.h:84-88 | one flip-fix step keeps the flip set consistent and everything a flip keeps, and spends either a flip or a candidate |
| Cdts.FlipFix | poly2tri-c/refine/cdt-flipfix.h:78-88 | flip-fix empties the flip set and keeps the points, the constrained segments, validity, the attached points and the number of triangles; with an empty set it changes nothing |
| Cdts.FixAround | poly2tri-c/refine/cdt-flipfix.h:78-88 | queuing the candidate sides in a new flip set and running flip-fix keeps the mesh sound and keeps everything flip-fix keeps: points, constrained segments, constrained half-edges, validity, attached points and the number of triangles |
| Cdts.SplitAndFix | refine/cdt.h:71-81 | an edge split followed by flip-fix keeps the mesh sound and valid and the points; the new point becomes attached and no other; each triangle beside the edge becomes two, so the count grows by the number of those triangles; the constrained set changes only by the split edge's parts; a constrained edge leaves its two constrained parts in the mesh |
| Cdts.SplitEdge | refine/cdt.h:71-81 | split_edge attaches the point on the edge, adds one triangle for each triangle beside the edge, keeps soundness and validity, and returns the parts exactly when the edge was constrained: two half-edges from start to point and from point to end, constrained, in the mesh and referenced for the caller |
| Cdts.InsertPointIntoTriangle | refine/cdt.h:63-69 | inserting a point into the triangle containing it attaches that point and no other, leaves two triangles more, keeps the mesh sound and valid, and keeps the points and constrained segments |
| Insertion.NewPointSound | poly2tri-c/refine/mesh.h:52-53 | a new point leaves the mesh sound, is isolated, adds only itself to the shape and keeps validity |
| Insertion.PlacePoint | refine/cdt.h:49-81 | a new point placed in a triangle becomes a point of the mesh and the only newly attached one; placed on a side, the count of triangles grows by the triangles beside that side, and otherwise by two |
| Insertion.PlaceInTriangle | refine/cdt.h:49-69 | it fails exactly when the first side of the triangle that the oracle puts the point on is pinched; on success the new point is added and attached and nothing else is, validity is kept, and the triangles grow by two when the oracle puts the point on no side of the triangle, or by the triangles beside the first side it lies on |
| Insertion.InsertPoint | refine/cdt.h:49-61 | insert_point fails when no triangle contains the point, and otherwise only when the first side of a containing triangle that the point lies on is pinched; on success the CDT keeps its outline, the mesh stays sound and valid, the points grow by exactly the new one, which is attached to the triangulation, and some triangle containing the point was split on its side or in three |

## Left out

- The bodies of `cdt.c`, `cdt-flipfix.c`, `mesh.c`, `mesh-action.c`,
  `point.c`, `edge.c` and `triangle.c` are not part of this model. Those
  operations are rebuilt from their documented contracts in the headers,
  and from the structure the layer's design describes.
- Floating-point geometry (in-circle, orientation, point location by
  barycentric coordinates) is not modelled: it is a caller-supplied
  oracle. The cached `angle` of a half-edge is left out for the same
  reason.
- Deallocation of points, half-edges, triangles and meshes is left out.
  Their `free`/`destroy` code is in files outside this model, and
  references held by structural links are not counted. Virtual edges are
  freed, as `vedge.c` shows.
- `p2tr_mesh_new`, `p2tr_mesh_clear`, `p2tr_mesh_destroy`,
  `p2tr_mesh_new_point2` and `p2tr_mesh_find_point2` are left out.
  `p2tr_mesh_find_point_local2` (the barycentric `u`, `v` outputs) is
  left out too. They add no topology.
- `p2tr_cdt_new` and `p2tr_cdt_free` are left out: they convert from, and
  free, the external triangulation. `p2tr_cdt_validate_unused` is left
  out as well.
- `p2tr_cdt_validate_cdt` and `p2tr_cdt_visible_from_edge` are left out:
  they are purely geometric.
- The outline (`P2trPSLG`) is an opaque set of segments.
- `p2tr_flip_set_free` is left out. The flip set is a value, and
  `Cdts.FlipFix` states that it leaves the set empty, which is the
  caller's obligation before freeing.
- The `delaunay` scratch flag of a half-edge is carried but not used.
  Flip-fix tracks its candidates through the flip set's keys.
- The hash of `UndirectedHash` is one chosen function into a fixed range.
  Only its agreement with undirected equality matters.
- Cdts.FlipFix: runs on a flip budget (`fuel`). The Lawson flip sequence
  terminates for a geometric reason that an uninterpreted oracle cannot
  supply; when the budget runs out, the remaining candidates are popped
  without flipping. The structural guarantees hold either way, but the
  constrained Delaunay property itself is not stated.
- Cdts.FlipFix: the model decides to flip when the edge is unconstrained,
  has a triangle on each side with distinct apexes that are not already
  joined, and fails the
  oracle's in-circle test. The visibility refinements of the C code are
  not modelled.
- Cdts.SplitEdge: requires that the triangles on the two sides of the
  edge have different apexes (`ApartWings`). That always holds in a planar
  mesh, but it does not follow from the topology alone.
- Cdts.SplitEdge: the references on the two constrained parts are taken
  after flip-fix rather than kept from their creation. Flip-fix never
  flips a constrained half-edge, so the parts handed back are the same
  ones.
- Cdts.SplitEdge: the point is required to lie on the edge, as the header
  demands (the `onSegment` oracle question). The model does not use the
  coordinates beyond that.
- Insertion.InsertPoint: returns nothing when the point lies outside every
  triangle, where the C code has no triangle to insert into. It also
  returns nothing for the non-planar case of a pinched side (two triangles
  on one side sharing their apex).
- Insertion.InsertPoint: a point is taken to lie on a side when the
  `onSegment` oracle says so. The C code decides this with an orientation
  test.
- Insertion.InsertPoint: does not state the new constrained set. A point
  on a constrained side splits it into its two constrained halves, as
  `Cdts.SplitEdge` states, and otherwise the constrained set is kept.
- Insertion.InsertPoint: the reference to the located triangle that
  `find_point_local` hands over is not modelled, because triangle
  references are not counted.
- VEdges.Get: requires the virtual edge to be real. `p2tr_vedge_get`
  asks `p2tr_point_get_edge_to` for the edge in its strict mode, and
  `point.c` is not part of this model. Asking for the half-edge of a
  virtual edge that has none is treated as a caller error and excluded,
  rather than given a result. `VEdges.TryGetAndUnref` is the variant that
  handles the missing edge.
- MeshActions.HoldCorners: a virtual triangle's own reference count is
  not kept apart from the references it holds on its three corners. The
  model counts only those corner references, which are what releasing
  the triangle gives back. MeshActions.ReleaseCorners is the same.
- Meshes.FindPointLocal: scans every triangle of the mesh after trying
  the guess. The C code walks from the guess across neighbouring
  triangles, which assumes the mesh is one connected region. Both find a
  containing triangle whenever the walk can, and the model also finds one
  in a mesh of several regions.
- MeshActions.Ready: undoing an action requires the mesh to be in the
  state the action left it in, for example an edge to remove with no
  triangle left on either side. The C code's removals would cascade to
  the triangles on the edge, and undoing over such a cascade is not
  modelled.
- Point coordinates are fixed when a point is created and are not
  changed by any modelled operation.
