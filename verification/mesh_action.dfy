/**
 * The mesh-action log of poly2tri-c/refine/mesh-action.h: tagged records of
 * one point, half-edge pair or triangle having been added to or removed from
 * the mesh, their reference counts, and undo.
 *
 * Undo is judged on the mesh's shape (Meshes.Shape): the points, the
 * (start, end, constrained) signatures of the half-edges and the directed
 * sides of the triangles. Undoing a recorded sequence in reverse order gives
 * back the shape the mesh had before the sequence, even though the
 * recreated half-edges and triangles get fresh ids.
 */
module MeshActions {
  import opened Wrappers
  import opened Topology
  import Edges
  import Points
  import VEdges
  import Meshes
  import MeshEdits

  // ---------------------------------------------------------------------------
  // The record
  // ---------------------------------------------------------------------------

  /** P2trMeshActionType: what kind of entity the action is about. */
  datatype ActionType = PointAction | EdgeAction | TriangleAction

  /**
   * P2trVTriangle: a triangle remembered by its corners A, B, C, which need
   * not be a triangle of the mesh. Like a virtual edge, it holds one
   * reference to each corner.
   */
  datatype VTriangle = VTriangle(p1: PointId, p2: PointId, p3: PointId)

  /** The union of P2trMeshAction_: a point; a virtual edge and its constrained flag; or a virtual triangle. */
  datatype Payload =
    | PointPayload(point: PointId)
    | EdgePayload(vedge: VEdgeId, constrained: bool)
    | TrianglePayload(vtri: VTriangle)

  /** P2trMeshAction_: the type tag, whether the entity was added or removed, the reference count and the payload. */
  datatype MeshAction = MeshAction(kind: ActionType, added: bool, refcount: nat, payload: Payload)

  /** The payload is the member of the union that the type tag names. */
  predicate WellTagged(m: MeshAction)
  {
    match m.kind
    case PointAction => m.payload.PointPayload?
    case EdgeAction => m.payload.EdgePayload?
    case TriangleAction => m.payload.TrianglePayload?
  }

  /** What an action is about, read in terms of points: its point, its edge's ends and flag, or its triangle's corners. */
  datatype Change =
    | PointChange(p: PointId)
    | EdgeChange(s: PointId, e: PointId, c: bool)
    | TriangleChange(t: VTriangle)

  /** The action is well tagged and every point and virtual edge it names is allocated in `a`. */
  predicate Resolvable(a: Arena, m: MeshAction)
  {
    && WellTagged(m)
    && match m.payload
       case PointPayload(p) => p in a.points
       case EdgePayload(v, _) => v in a.vedges && a.vedges[v].start in a.points && a.vedges[v].end in a.points
       case TrianglePayload(t) => t.p1 in a.points && t.p2 in a.points && t.p3 in a.points
  }

  function Resolve(a: Arena, m: MeshAction): Change
    requires Resolvable(a, m)
  {
    match m.payload
    case PointPayload(p) => PointChange(p)
    case EdgePayload(v, c) => EdgeChange(a.vedges[v].start, a.vedges[v].end, c)
    case TrianglePayload(t) => TriangleChange(t)
  }

  /** An arena with the same virtual edges and allocated points resolves an action the same way. */
  lemma ResolveFrame(a: Arena, b: Arena, m: MeshAction)
    requires Resolvable(a, m) && b.vedges == a.vedges && b.points.Keys == a.points.Keys
    ensures Resolvable(b, m) && Resolve(b, m) == Resolve(a, m)
  {
  }

  // ---------------------------------------------------------------------------
  // Virtual triangles' corner references
  // ---------------------------------------------------------------------------

  /** How many references a virtual triangle with these corners holds to point `q`. */
  function CornerHolds(q: PointId, t: VTriangle): nat
  {
    (if q == t.p1 then 1 else 0) + (if q == t.p2 then 1 else 0) + (if q == t.p3 then 1 else 0)
  }

  /** The corners are allocated and each holds at least the references the virtual triangle took. */
  predicate CornersHeld(a: Arena, t: VTriangle)
  {
    && t.p1 in a.points && t.p2 in a.points && t.p3 in a.points
    && a.points[t.p1].refcount >= CornerHolds(t.p1, t)
    && a.points[t.p2].refcount >= CornerHolds(t.p2, t)
    && a.points[t.p3].refcount >= CornerHolds(t.p3, t)
  }

  /** One reference to each corner is taken; nothing else changes. */
  function HoldCorners(a: Arena, t: VTriangle): (r: Arena)
    requires t.p1 in a.points && t.p2 in a.points && t.p3 in a.points
    ensures CornersHeld(r, t)
  {
    a.(points := map q | q in a.points :: a.points[q].(refcount := a.points[q].refcount + CornerHolds(q, t)))
  }

  /** The references HoldCorners took are released; nothing else changes. */
  function ReleaseCorners(a: Arena, t: VTriangle): (r: Arena)
    requires CornersHeld(a, t)
    ensures r.points.Keys == a.points.Keys
    ensures forall q :: q in a.points ==> r.points[q].refcount + CornerHolds(q, t) == a.points[q].refcount
  {
    a.(points := map q | q in a.points ::
         a.points[q].(refcount := if q == t.p1 || q == t.p2 || q == t.p3 then a.points[q].refcount - CornerHolds(q, t)
                                  else a.points[q].refcount))
  }

  /** Releasing corner references just taken gives back the arena unchanged. */
  lemma HoldThenRelease(a: Arena, t: VTriangle)
    requires t.p1 in a.points && t.p2 in a.points && t.p3 in a.points
    ensures ReleaseCorners(HoldCorners(a, t), t) == a
  {
    var r := ReleaseCorners(HoldCorners(a, t), t);
    assert r.points == a.points;
  }

  // ---------------------------------------------------------------------------
  // Constructors
  // ---------------------------------------------------------------------------

  /**
   * p2tr_mesh_action_new_point (added = true) and p2tr_mesh_action_del_point
   * (added = false): a point action with one reference, holding a reference
   * to the point.
   */
  function PointActionOf(a: Arena, p: PointId, added: bool): (r: (Arena, MeshAction))
    requires p in a.points
    ensures WellTagged(r.1) && r.1.kind == PointAction && r.1.added == added && r.1.refcount == 1
    ensures Resolvable(r.0, r.1) && Resolve(r.0, r.1) == PointChange(p)
    ensures r.0.points[p].refcount == a.points[p].refcount + 1
    ensures r.0 == a.(points := r.0.points) && r.0.points.Keys == a.points.Keys
  {
    (Points.Ref(a, p), MeshAction(PointAction, added, 1, PointPayload(p)))
  }

  /**
   * p2tr_mesh_action_new_edge (added = true) and p2tr_mesh_action_del_edge
   * (added = false): an edge action remembering the half-edge as a new
   * virtual edge between its ends, together with its constrained flag.
   */
  function EdgeActionOf(a: Arena, x: EdgeId, added: bool): (r: (Arena, MeshAction))
    requires Allocated(a) && x in a.edges && a.edges[x].mirror in a.edges
    requires Edges.Start(a, x) in a.points && a.edges[x].end in a.points
    ensures WellTagged(r.1) && r.1.kind == EdgeAction && r.1.added == added && r.1.refcount == 1
    ensures Resolvable(r.0, r.1)
    ensures Resolve(r.0, r.1) == EdgeChange(Edges.Start(a, x), a.edges[x].end, a.edges[x].constrained)
    ensures r.1.payload.vedge !in a.vedges
    ensures r.0.edges == a.edges && r.0.tris == a.tris && r.0.mesh == a.mesh && r.0.id == a.id
  {
    var (b, v) := VEdges.New2(a, x);
    (b, MeshAction(EdgeAction, added, 1, EdgePayload(v, a.edges[x].constrained)))
  }

  /** The corners A, B, C of a mesh triangle: the starts of AB, BC and CA. */
  function CornersOf(a: Arena, t: TriId): VTriangle
    requires Meshes.InArena(a) && Edges.Mirrored(a) && Meshes.EdgesClosed(a) && t in a.mesh.triangles && Meshes.TriangleWf(a, t)
  {
    var tr := a.tris[t];
    VTriangle(Edges.Start(a, tr.ab), Edges.Start(a, tr.bc), Edges.Start(a, tr.ca))
  }

  /**
   * p2tr_mesh_action_new_triangle (added = true) and
   * p2tr_mesh_action_del_triangle (added = false): a triangle action
   * remembering the triangle as a virtual triangle over its corners, whose
   * directed sides are exactly the triangle's.
   */
  function TriangleActionOf(a: Arena, t: TriId, added: bool): (r: (Arena, MeshAction))
    requires Meshes.InArena(a) && Edges.Mirrored(a) && Meshes.EdgesClosed(a) && t in a.mesh.triangles && Meshes.TriangleWf(a, t)
    ensures WellTagged(r.1) && r.1.kind == TriangleAction && r.1.added == added && r.1.refcount == 1
    ensures Resolvable(r.0, r.1) && Resolve(r.0, r.1).TriangleChange?
    ensures TriItem(Resolve(r.0, r.1).t) == Meshes.TriSigOf(a, t)
    ensures r.0 == a.(points := r.0.points) && r.0.points.Keys == a.points.Keys
  {
    var vt := CornersOf(a, t);
    (HoldCorners(a, vt), MeshAction(TriangleAction, added, 1, TrianglePayload(vt)))
  }

  // ---------------------------------------------------------------------------
  // Reference counting
  // ---------------------------------------------------------------------------

  /** What freeing the action releases is still held: its point, its virtual edge, or its triangle's corners. */
  predicate Releasable(a: Arena, m: MeshAction)
  {
    match m.payload
    case PointPayload(p) => p in a.points && a.points[p].refcount > 0
    case EdgePayload(v, _) =>
      v in a.vedges && a.vedges[v].refcount > 0 && (a.vedges[v].refcount == 1 ==> VEdges.PointsHeld(a, v))
    case TrianglePayload(t) => CornersHeld(a, t)
  }

  /** p2tr_mesh_action_free: the action lets go of its point, its virtual edge or its virtual triangle. */
  function Free(a: Arena, m: MeshAction): (r: Arena)
    requires Releasable(a, m)
    ensures r.edges == a.edges && r.tris == a.tris && r.mesh == a.mesh && r.id == a.id && r.next == a.next
    ensures r.points.Keys == a.points.Keys
  {
    match m.payload
    case PointPayload(p) => Points.Unref(a, p)
    case EdgePayload(v, _) => VEdges.Unref(a, v)
    case TrianglePayload(t) => ReleaseCorners(a, t)
  }

  /** p2tr_mesh_action_ref: one more reference to the action. */
  function Ref(m: MeshAction): (r: MeshAction)
    ensures r.refcount == m.refcount + 1
    ensures r.kind == m.kind && r.added == m.added && r.payload == m.payload
  {
    m.(refcount := m.refcount + 1)
  }

  /**
   * p2tr_mesh_action_unref: release one reference, which must be held. The
   * last release frees the action (None); until then the action lives on
   * with one reference fewer and the arena is untouched.
   */
  function Unref(a: Arena, m: MeshAction): (r: (Arena, Option<MeshAction>))
    requires m.refcount > 0 && (m.refcount == 1 ==> Releasable(a, m))
    ensures r.1.None? <==> m.refcount == 1
    ensures r.1.Some? ==> r.0 == a && r.1.value.refcount == m.refcount - 1
    ensures r.1.Some? ==> r.1.value.kind == m.kind && r.1.value.added == m.added && r.1.value.payload == m.payload
  {
    if m.refcount == 1 then (Free(a, m), None) else (a, Some(m.(refcount := m.refcount - 1)))
  }

  /** Releasing a reference just taken gives back the action and the arena unchanged. */
  lemma RefThenUnref(a: Arena, m: MeshAction)
    requires m.refcount > 0
    ensures Unref(a, Ref(m)) == (a, Some(m))
  {
  }

  /** A point action released straight after it is made leaves the arena as it found it. */
  lemma PointActionBalance(a: Arena, p: PointId, added: bool)
    requires p in a.points
    ensures var (b, m) := PointActionOf(a, p, added); Unref(b, m) == (a, None)
  {
    Points.RefThenUnref(a, p);
  }

  /**
   * An edge action released straight after it is made frees its virtual
   * edge and leaves the arena as it found it, but for the allocator.
   */
  lemma EdgeActionBalance(a: Arena, x: EdgeId, added: bool)
    requires Allocated(a) && x in a.edges && a.edges[x].mirror in a.edges
    requires Edges.Start(a, x) in a.points && a.edges[x].end in a.points
    ensures var (b, m) := EdgeActionOf(a, x, added); Unref(b, m) == (a.(next := b.next), None)
  {
    VEdges.FreeNew(a, Edges.Start(a, x), a.edges[x].end);
  }

  /** A triangle action released straight after it is made leaves the arena as it found it. */
  lemma TriangleActionBalance(a: Arena, t: TriId, added: bool)
    requires Meshes.InArena(a) && Edges.Mirrored(a) && Meshes.EdgesClosed(a) && t in a.mesh.triangles && Meshes.TriangleWf(a, t)
    ensures var (b, m) := TriangleActionOf(a, t, added); Unref(b, m) == (a, None)
  {
    HoldThenRelease(a, CornersOf(a, t));
  }

  // ---------------------------------------------------------------------------
  // Changes to the shape
  // ---------------------------------------------------------------------------

  /** The directed sides of a virtual triangle, as a triangle signature. */
  function TriItem(t: VTriangle): Meshes.TriSig
  {
    {(t.p1, t.p2), (t.p2, t.p3), (t.p3, t.p1)}
  }

  /** The signatures of a half-edge pair between `s` and `e`. */
  function EdgeItems(s: PointId, e: PointId, c: bool): set<Meshes.EdgeSig>
  {
    {(s, e, c), (e, s, c)}
  }

  /** The shape has no half-edge from `s` to `e`. */
  predicate SideFree(sh: Meshes.Shape, s: PointId, e: PointId)
  {
    (s, e, true) !in sh.edges && (s, e, false) !in sh.edges
  }

  /** No triangle of the shape has the directed side (s, e). */
  predicate SideBare(sh: Meshes.Shape, s: PointId, e: PointId)
  {
    forall sig :: sig in sh.triangles ==> (s, e) !in sig
  }

  /** The shape with the change's entity added. */
  function Grow(sh: Meshes.Shape, ch: Change): Meshes.Shape
  {
    match ch
    case PointChange(p) => sh.(points := sh.points + {p})
    case EdgeChange(s, e, c) => sh.(edges := sh.edges + EdgeItems(s, e, c))
    case TriangleChange(t) => sh.(triangles := sh.triangles + {TriItem(t)})
  }

  /** The shape with the change's entity taken away. */
  function Shrink(sh: Meshes.Shape, ch: Change): Meshes.Shape
  {
    match ch
    case PointChange(p) => sh.(points := sh.points - {p})
    case EdgeChange(s, e, c) => sh.(edges := sh.edges - EdgeItems(s, e, c))
    case TriangleChange(t) => sh.(triangles := sh.triangles - {TriItem(t)})
  }

  /** What the recorded mutation did to the shape. */
  function Forward(sh: Meshes.Shape, added: bool, ch: Change): Meshes.Shape
  {
    if added then Grow(sh, ch) else Shrink(sh, ch)
  }

  /** What undoing it does to the shape. */
  function Backward(sh: Meshes.Shape, added: bool, ch: Change): Meshes.Shape
  {
    if added then Shrink(sh, ch) else Grow(sh, ch)
  }

  /**
   * The recorded mutation was a real one in a shape `sh`: an added entity
   * was not there before, a removed one was.
   */
  predicate Applicable(sh: Meshes.Shape, added: bool, ch: Change)
  {
    match ch
    case PointChange(p) => if added then p !in sh.points else p in sh.points
    case EdgeChange(s, e, c) =>
      if added then SideFree(sh, s, e) && SideFree(sh, e, s) else EdgeItems(s, e, c) <= sh.edges
    case TriangleChange(t) => if added then TriItem(t) !in sh.triangles else TriItem(t) in sh.triangles
  }

  /** Undoing a real mutation gives back the shape it started from. */
  lemma BackwardForward(sh: Meshes.Shape, added: bool, ch: Change)
    requires Applicable(sh, added, ch)
    ensures Backward(Forward(sh, added, ch), added, ch) == sh
  {
    match ch
    case PointChange(p) =>
    case EdgeChange(s, e, c) =>
      if added {
        assert sh.edges + EdgeItems(s, e, c) - EdgeItems(s, e, c) == sh.edges;
      }
    case TriangleChange(t) =>
  }

  /**
   * The shape-level conditions under which undoing the change is defined in
   * a simple well-formed mesh of shape `sh`:
   * - an added point is still there and no edge starts at it;
   * - an added edge pair is still there and no triangle runs along it;
   * - an added triangle is still there;
   * - a removed point is not there;
   * - a removed edge's ends are there, distinct and not yet joined;
   * - each side of a removed triangle is an edge with no triangle on it.
   */
  predicate Undoable(sh: Meshes.Shape, added: bool, ch: Change)
  {
    match ch
    case PointChange(p) =>
      if added then p in sh.points && forall sg :: sg in sh.edges ==> sg.0 != p
      else p !in sh.points
    case EdgeChange(s, e, c) =>
      if added then EdgeItems(s, e, c) <= sh.edges && SideBare(sh, s, e) && SideBare(sh, e, s)
      else s in sh.points && e in sh.points && s != e && SideFree(sh, s, e)
    case TriangleChange(t) =>
      if added then TriItem(t) in sh.triangles
      else
        && !SideFree(sh, t.p1, t.p2) && SideBare(sh, t.p1, t.p2)
        && !SideFree(sh, t.p2, t.p3) && SideBare(sh, t.p2, t.p3)
        && !SideFree(sh, t.p3, t.p1) && SideBare(sh, t.p3, t.p1)
  }

  // ---------------------------------------------------------------------------
  // Undo on the arena
  // ---------------------------------------------------------------------------

  /** The half-edge from `s` to `e` found through the outgoing list of `s`, as p2tr_point_has_edge_to does. */
  function Lookup(a: Arena, s: PointId, e: PointId): (r: Option<EdgeId>)
    requires Meshes.Wf(a) && s in a.points
    ensures r.Some? <==> Meshes.HasEdge(a, s, e)
    ensures r.Some? ==> r.value in a.mesh.edges && Meshes.SideOf(a, r.value) == (s, e)
  {
    Meshes.EdgeToMatches(a, s, e);
    Points.EdgeTo(a, s, e)
  }

  /** The mesh triangle that runs along the virtual triangle's first side, if any. */
  function FindTriangle(a: Arena, t: VTriangle): (r: Option<TriId>)
    requires Meshes.Wf(a) && t.p1 in a.points
    ensures r.Some? ==> r.value in a.mesh.triangles && (t.p1, t.p2) in Meshes.TriSigOf(a, r.value)
  {
    match Lookup(a, t.p1, t.p2)
    case Some(x) => if a.edges[x].tri.Some? then Meshes.TriSideInSig(a, x); a.edges[x].tri else None
    case None => None
  }

  /**
   * The arena-level preconditions of the mutation that undoes the action:
   * a point to take out has no edges left; an edge pair to take out exists
   * and has no triangle on either side; a triangle to take out exists; a
   * point to put back is outside the mesh; an edge to recreate has both
   * ends in the mesh; a triangle to recreate has three half-edges chaining
   * round it with no triangle yet.
   */
  predicate Ready(a: Arena, m: MeshAction)
    requires Meshes.Wf(a) && Resolvable(a, m)
  {
    match m.payload
    case PointPayload(p) =>
      if m.added then p in a.mesh.points && a.points[p].outgoing == [] else p !in a.mesh.points
    case EdgePayload(v, _) =>
      var s := a.vedges[v].start;
      var e := a.vedges[v].end;
      if m.added then
        var x := Lookup(a, s, e);
        x.Some? && a.edges[x.value].tri.None? && a.edges[a.edges[x.value].mirror].tri.None?
      else s in a.mesh.points && e in a.mesh.points
    case TrianglePayload(t) =>
      if m.added then FindTriangle(a, t).Some?
      else
        var ab := Lookup(a, t.p1, t.p2);
        var bc := Lookup(a, t.p2, t.p3);
        var ca := Lookup(a, t.p3, t.p1);
        ab.Some? && bc.Some? && ca.Some? && Meshes.FreeChain(a, ab.value, bc.value, ca.value)
  }

  /**
   * p2tr_mesh_action_undo: apply the inverse of the recorded mutation to the
   * mesh. An added point leaves the mesh and a removed one rejoins it; an
   * added edge pair, found through its virtual edge, is removed and a
   * removed one is recreated between the virtual edge's ends with the
   * recorded flag, its creation reference released as the CDT operations
   * release theirs, so only the mesh holds it; an added triangle, found through its corners, is removed
   * and a removed one is recreated over the half-edges between its corners.
   * Virtual edges and the set of allocated points are left alone.
   */
  function Undo(a: Arena, m: MeshAction): (r: Arena)
    requires Meshes.Wf(a) && Resolvable(a, m) && Ready(a, m)
    ensures r.vedges == a.vedges && r.points.Keys == a.points.Keys
  {
    match m.payload
    case PointPayload(p) =>
      if m.added then Meshes.OnPointRemoved(a, p) else Meshes.Readmit(a, p)
    case EdgePayload(v, c) =>
      var s := a.vedges[v].start;
      var e := a.vedges[v].end;
      if m.added then Meshes.RemoveEdge(a, Lookup(a, s, e).value)
      else
        var (b, x) := Meshes.NewEdge(a, s, e, c);
        Edges.Unref(b, x)
    case TrianglePayload(t) =>
      if m.added then Meshes.RemoveTriangle(a, FindTriangle(a, t).value)
      else Meshes.NewTriangle(a, Lookup(a, t.p1, t.p2).value, Lookup(a, t.p2, t.p3).value,
                              Lookup(a, t.p3, t.p1).value).0
  }

  /**
   * No half-edge reference is taken or dropped from `a` to `r`: every
   * allocated half-edge keeps its count, and a new one is held by the mesh
   * alone, as a pair the CDT operations build is.
   */
  predicate CountsKept(a: Arena, r: Arena)
  {
    && (forall x :: x in a.edges ==> x in r.edges && r.edges[x].refcount == a.edges[x].refcount)
    && (forall x :: x in r.edges && x !in a.edges ==> r.edges[x].refcount == 0)
  }

  /** Undo keeps every half-edge reference count, and a pair it recreates holds no reference. */
  lemma UndoCounts(a: Arena, m: MeshAction)
    requires Meshes.Wf(a) && Resolvable(a, m) && Ready(a, m)
    ensures CountsKept(a, Undo(a, m))
  {
    if m.payload.PointPayload? {
      UndoPointCounts(a, m);
    } else if m.payload.EdgePayload? {
      UndoEdgeCounts(a, m);
    } else {
      UndoTriangleCounts(a, m);
    }
  }

  lemma UndoPointCounts(a: Arena, m: MeshAction)
    requires Meshes.Wf(a) && Resolvable(a, m) && Ready(a, m) && m.payload.PointPayload?
    ensures CountsKept(a, Undo(a, m))
  {
    assert Undo(a, m).edges == a.edges;
  }

  lemma UndoEdgeCounts(a: Arena, m: MeshAction)
    requires Meshes.Wf(a) && Resolvable(a, m) && Ready(a, m) && m.payload.EdgePayload?
    ensures CountsKept(a, Undo(a, m))
  {
    var v, c := m.payload.vedge, m.payload.constrained;
    var s, e := a.vedges[v].start, a.vedges[v].end;
    if m.added {
      assert Undo(a, m).edges == a.edges;
    } else {
      NewPairCounts(a, s, e, c);
    }
  }

  lemma UndoTriangleCounts(a: Arena, m: MeshAction)
    requires Meshes.Wf(a) && Resolvable(a, m) && Ready(a, m) && m.payload.TrianglePayload?
    ensures CountsKept(a, Undo(a, m))
  {
    var t := m.payload.vtri;
    if m.added {
      RemoveTriangleCounts(a, FindTriangle(a, t).value);
    } else {
      NewTriangleCounts(a, Lookup(a, t.p1, t.p2).value, Lookup(a, t.p2, t.p3).value, Lookup(a, t.p3, t.p1).value);
    }
  }

  lemma RemoveTriangleCounts(a: Arena, t: TriId)
    requires Meshes.Wf(a) && t in a.mesh.triangles
    ensures CountsKept(a, Meshes.RemoveTriangle(a, t))
  {
    var r := Meshes.RemoveTriangle(a, t);
    assert forall x :: x in a.edges ==> r.edges[x].refcount == a.edges[x].refcount;
  }

  lemma NewTriangleCounts(a: Arena, ab: EdgeId, bc: EdgeId, ca: EdgeId)
    requires Meshes.Wf(a) && Meshes.FreeChain(a, ab, bc, ca)
    ensures CountsKept(a, Meshes.NewTriangle(a, ab, bc, ca).0)
  {
    var r := Meshes.NewTriangle(a, ab, bc, ca).0;
    assert forall x :: x in a.edges ==> r.edges[x].refcount == a.edges[x].refcount;
  }

  /** A new pair whose creation reference is released holds no reference, and no other count changes. */
  lemma NewPairCounts(a: Arena, s: PointId, e: PointId, c: bool)
    requires Allocated(a) && s in a.points && e in a.points
    ensures var (b, x) := Meshes.NewEdge(a, s, e, c); CountsKept(a, Edges.Unref(b, x))
  {
  }

  // ---------------------------------------------------------------------------
  // Undo inverts the recorded mutation
  // ---------------------------------------------------------------------------

  lemma UndoPointStep(a: Arena, m: MeshAction)
    requires Meshes.Wf(a) && Meshes.Simple(a) && Resolvable(a, m) && m.payload.PointPayload?
    requires Undoable(Meshes.ShapeOf(a), m.added, Resolve(a, m))
    ensures Ready(a, m)
    ensures var b := Undo(a, m);
      Meshes.Wf(b) && Meshes.Simple(b) && Meshes.ShapeOf(b) == Backward(Meshes.ShapeOf(a), m.added, Resolve(a, m))
  {
    var p := m.payload.point;
    if m.added {
      Meshes.NoSigNoOutgoing(a, p);
      Meshes.OnPointRemovedKeeps(a, p);
    } else {
      Meshes.ReadmitKeeps(a, p);
    }
  }

  lemma UndoEdgeStep(a: Arena, m: MeshAction)
    requires Meshes.Wf(a) && Meshes.Simple(a) && Resolvable(a, m) && m.payload.EdgePayload?
    requires Undoable(Meshes.ShapeOf(a), m.added, Resolve(a, m))
    ensures Ready(a, m)
    ensures var b := Undo(a, m);
      Meshes.Wf(b) && Meshes.Simple(b) && Meshes.ShapeOf(b) == Backward(Meshes.ShapeOf(a), m.added, Resolve(a, m))
  {
    var v := m.payload.vedge;
    var c := m.payload.constrained;
    var s := a.vedges[v].start;
    var e := a.vedges[v].end;
    Meshes.HasEdgeBySig(a, s, e);
    if m.added {
      assert (s, e, c) in Meshes.EdgeSigs(a) && (e, s, c) in Meshes.EdgeSigs(a);
      var x := Lookup(a, s, e).value;
      var y := a.edges[x].mirror;
      Edges.MirrorInvolution(a, x);
      assert y in a.mesh.edges && Meshes.SideOf(a, y) == (e, s);
      Meshes.TriFreeBySig(a, x);
      Meshes.TriFreeBySig(a, y);
      Meshes.SideSig(a, x, c);
      Meshes.SideSig(a, y, c);
      Meshes.RemoveEdgeKeeps(a, x);
    } else {
      Meshes.NewEdgeKeeps(a, s, e, c);
      var (b, x) := Meshes.NewEdge(a, s, e, c);
      MeshEdits.Release(b, x);
    }
  }

  /** A side of a virtual triangle whose sides are all mesh edges with no triangle on them, as a half-edge. */
  lemma OpenSide(a: Arena, s: PointId, e: PointId)
    requires Meshes.Wf(a) && Meshes.Simple(a) && s in a.points
    requires !SideFree(Meshes.ShapeOf(a), s, e) && SideBare(Meshes.ShapeOf(a), s, e)
    ensures Lookup(a, s, e).Some? && a.edges[Lookup(a, s, e).value].tri.None?
  {
    Meshes.HasEdgeBySig(a, s, e);
    Meshes.TriFreeBySig(a, Lookup(a, s, e).value);
  }

  /** Undoing a triangle's addition removes the mesh triangle whose signature is the virtual triangle's. */
  lemma UndoAddedTriangle(a: Arena, t: VTriangle)
    requires Meshes.Wf(a) && Meshes.Simple(a) && t.p1 in a.points && TriItem(t) in Meshes.TriSigs(a)
    ensures FindTriangle(a, t).Some?
    ensures var u := FindTriangle(a, t).value;
      && Meshes.TriSigOf(a, u) == TriItem(t)
      && var b := Meshes.RemoveTriangle(a, u);
         Meshes.Wf(b) && Meshes.Simple(b)
         && Meshes.ShapeOf(b) == Meshes.ShapeOf(a).(triangles := Meshes.TriSigs(a) - {TriItem(t)})
  {
    var sig := TriItem(t);
    Meshes.TriSideIsEdge(a, sig, (t.p1, t.p2));
    var x := Lookup(a, t.p1, t.p2).value;
    Meshes.TriFreeBySig(a, x);
    var u := a.edges[x].tri.value;
    Meshes.TriSideInSig(a, x);
    Meshes.SideInOneTri(a, Meshes.TriSigOf(a, u), sig, (t.p1, t.p2));
    assert FindTriangle(a, t) == Some(u);
    Meshes.RemoveTriangleKeeps(a, u);
    Meshes.RemoveTriangleShape(a, u);
  }

  /** Undoing a triangle's removal rebuilds it over the three open half-edges between its corners. */
  lemma UndoRemovedTriangle(a: Arena, t: VTriangle)
    requires Meshes.Wf(a) && Meshes.Simple(a) && t.p1 in a.points && t.p2 in a.points && t.p3 in a.points
    requires !SideFree(Meshes.ShapeOf(a), t.p1, t.p2) && SideBare(Meshes.ShapeOf(a), t.p1, t.p2)
    requires !SideFree(Meshes.ShapeOf(a), t.p2, t.p3) && SideBare(Meshes.ShapeOf(a), t.p2, t.p3)
    requires !SideFree(Meshes.ShapeOf(a), t.p3, t.p1) && SideBare(Meshes.ShapeOf(a), t.p3, t.p1)
    ensures Lookup(a, t.p1, t.p2).Some? && Lookup(a, t.p2, t.p3).Some? && Lookup(a, t.p3, t.p1).Some?
    ensures var ab := Lookup(a, t.p1, t.p2).value;
      var bc := Lookup(a, t.p2, t.p3).value;
      var ca := Lookup(a, t.p3, t.p1).value;
      && Meshes.FreeChain(a, ab, bc, ca)
      && var b := Meshes.NewTriangle(a, ab, bc, ca).0;
         Meshes.Wf(b) && Meshes.Simple(b)
         && Meshes.ShapeOf(b) == Meshes.ShapeOf(a).(triangles := Meshes.TriSigs(a) + {TriItem(t)})
  {
    OpenSide(a, t.p1, t.p2);
    OpenSide(a, t.p2, t.p3);
    OpenSide(a, t.p3, t.p1);
    var ab := Lookup(a, t.p1, t.p2).value;
    var bc := Lookup(a, t.p2, t.p3).value;
    var ca := Lookup(a, t.p3, t.p1).value;
    SidesChain(a, t, ab, bc, ca);
    Meshes.NewTriangleKeeps(a, ab, bc, ca);
    Meshes.NewTriangleShape(a, ab, bc, ca);
  }

  /** Three open half-edges along the sides of a virtual triangle chain round it and carry its signature. */
  lemma SidesChain(a: Arena, t: VTriangle, ab: EdgeId, bc: EdgeId, ca: EdgeId)
    requires Meshes.InArena(a) && Edges.Mirrored(a)
    requires ab in a.mesh.edges && bc in a.mesh.edges && ca in a.mesh.edges
    requires Meshes.SideOf(a, ab) == (t.p1, t.p2) && Meshes.SideOf(a, bc) == (t.p2, t.p3)
    requires Meshes.SideOf(a, ca) == (t.p3, t.p1)
    requires a.edges[ab].tri.None? && a.edges[bc].tri.None? && a.edges[ca].tri.None?
    ensures Meshes.FreeChain(a, ab, bc, ca) && Meshes.ChainSig(a, ab, bc, ca) == TriItem(t)
  {
  }

  lemma UndoTriangleStep(a: Arena, m: MeshAction)
    requires Meshes.Wf(a) && Meshes.Simple(a) && Resolvable(a, m) && m.payload.TrianglePayload?
    requires Undoable(Meshes.ShapeOf(a), m.added, Resolve(a, m))
    ensures Ready(a, m)
    ensures var b := Undo(a, m);
      Meshes.Wf(b) && Meshes.Simple(b) && Meshes.ShapeOf(b) == Backward(Meshes.ShapeOf(a), m.added, Resolve(a, m))
  {
    if m.added {
      UndoAddedTriangle(a, m.payload.vtri);
    } else {
      UndoRemovedTriangle(a, m.payload.vtri);
    }
  }

  /**
   * In a simple well-formed mesh where undoing the action is defined on the
   * shape, undo can run, keeps the mesh simple and well formed, and changes
   * the shape exactly as Backward says.
   */
  lemma UndoStep(a: Arena, m: MeshAction)
    requires Meshes.Wf(a) && Meshes.Simple(a) && Resolvable(a, m)
    requires Undoable(Meshes.ShapeOf(a), m.added, Resolve(a, m))
    ensures Ready(a, m)
    ensures var b := Undo(a, m);
      Meshes.Wf(b) && Meshes.Simple(b) && Meshes.ShapeOf(b) == Backward(Meshes.ShapeOf(a), m.added, Resolve(a, m))
  {
    match m.payload
    case PointPayload(_) => UndoPointStep(a, m);
    case EdgePayload(_, _) => UndoEdgeStep(a, m);
    case TrianglePayload(_) => UndoTriangleStep(a, m);
  }

  /** After a triangle is removed from a simple mesh, each of its sides is an edge with no triangle on it. */
  lemma RemovedTriangleSide(h: Arena, t: VTriangle, s: PointId, e: PointId)
    requires Meshes.Wf(h) && Meshes.Simple(h) && TriItem(t) in Meshes.TriSigs(h) && (s, e) in TriItem(t)
    ensures var sh := Meshes.ShapeOf(h).(triangles := Meshes.TriSigs(h) - {TriItem(t)});
      !SideFree(sh, s, e) && SideBare(sh, s, e)
  {
    Meshes.TriSideIsEdge(h, TriItem(t), (s, e));
    Meshes.HasEdgeBySig(h, s, e);
    forall sig | sig in Meshes.TriSigs(h) - {TriItem(t)}
      ensures (s, e) !in sig
    {
      if (s, e) in sig {
        Meshes.SideInOneTri(h, sig, TriItem(t), (s, e));
      }
    }
  }

  /**
   * A real mutation of a simple well-formed mesh leaves a shape in which
   * undoing it is defined: whatever else a recorded sequence does, the
   * action recorded last can be undone first.
   */
  lemma StepUndoable(h: Arena, added: bool, ch: Change)
    requires Meshes.Wf(h) && Meshes.Simple(h) && Applicable(Meshes.ShapeOf(h), added, ch)
    ensures Undoable(Forward(Meshes.ShapeOf(h), added, ch), added, ch)
  {
    var sh := Meshes.ShapeOf(h);
    match ch
    case PointChange(p) =>
      if added {
        forall sg | sg in sh.edges
          ensures sg.0 != p
        {
          Meshes.SigEnds(h, sg);
        }
      }
    case EdgeChange(s, e, c) =>
      if added {
        forall sig | sig in sh.triangles
          ensures (s, e) !in sig && (e, s) !in sig
        {
          if (s, e) in sig {
            Meshes.TriSideIsEdge(h, sig, (s, e));
            Meshes.HasEdgeBySig(h, s, e);
          }
          if (e, s) in sig {
            Meshes.TriSideIsEdge(h, sig, (e, s));
            Meshes.HasEdgeBySig(h, e, s);
          }
        }
      } else {
        Meshes.SigEnds(h, (s, e, c));
        Meshes.SigUnique(h, s, e, c, c);
        if (s, e, !c) in sh.edges {
          Meshes.SigUnique(h, s, e, c, !c);
        }
      }
    case TriangleChange(t) =>
      if !added {
        RemovedTriangleSide(h, t, t.p1, t.p2);
        RemovedTriangleSide(h, t, t.p2, t.p3);
        RemovedTriangleSide(h, t, t.p3, t.p1);
      }
  }

  // ---------------------------------------------------------------------------
  // Undoing a recorded sequence
  // ---------------------------------------------------------------------------

  /**
   * One recorded step: the mesh `h` became one of shape `h2` by the real
   * mutation that `m` records, `m` being read in arena `a`.
   */
  ghost predicate StepRecorded(h: Arena, h2: Arena, m: MeshAction, a: Arena)
  {
    && Resolvable(a, m)
    && Applicable(Meshes.ShapeOf(h), m.added, Resolve(a, m))
    && Meshes.ShapeOf(h2) == Forward(Meshes.ShapeOf(h), m.added, Resolve(a, m))
  }

  /**
   * The meshes `hs` are the successive states of a sequence of mutations that
   * `log` records in order, each applied to a simple well-formed mesh.
   */
  ghost predicate Recorded(hs: seq<Arena>, log: seq<MeshAction>, a: Arena)
  {
    && |hs| == |log| + 1
    && forall i :: 0 <= i < |log| ==>
         Meshes.Wf(hs[i]) && Meshes.Simple(hs[i]) && StepRecorded(hs[i], hs[i + 1], log[i], a)
  }

  /** Undoing one recorded step in a mesh of the shape it produced gives back the shape it started from. */
  lemma UndoRecorded(r: Arena, a: Arena, h: Arena, h2: Arena, m: MeshAction)
    requires Meshes.Wf(h) && Meshes.Simple(h) && StepRecorded(h, h2, m, a)
    requires Meshes.Wf(r) && Meshes.Simple(r) && Meshes.ShapeOf(r) == Meshes.ShapeOf(h2)
    requires r.vedges == a.vedges && r.points.Keys == a.points.Keys
    ensures Resolvable(r, m) && Ready(r, m)
    ensures var b := Undo(r, m); Meshes.Wf(b) && Meshes.Simple(b) && Meshes.ShapeOf(b) == Meshes.ShapeOf(h)
  {
    ResolveFrame(a, r, m);
    StepUndoable(h, m.added, Resolve(a, m));
    BackwardForward(Meshes.ShapeOf(h), m.added, Resolve(a, m));
    UndoStep(r, m);
  }

  /**
   * Rolling back a recorded sequence: the actions are undone in strict
   * reverse order, and the mesh gets back the shape it had before the first
   * of them (the same points, the same edges between the same points with
   * the same flags, the same triangles), still simple and well formed.
   */
  method UndoAll(a: Arena, log: seq<MeshAction>, ghost hs: seq<Arena>) returns (r: Arena)
    requires Recorded(hs, log, a)
    requires Meshes.Wf(a) && Meshes.Simple(a) && Meshes.ShapeOf(a) == Meshes.ShapeOf(hs[|log|])
    ensures Meshes.Wf(r) && Meshes.Simple(r) && Meshes.ShapeOf(r) == Meshes.ShapeOf(hs[0])
  {
    r := a;
    var i := |log|;
    while i > 0
      invariant 0 <= i <= |log|
      invariant Meshes.Wf(r) && Meshes.Simple(r) && Meshes.ShapeOf(r) == Meshes.ShapeOf(hs[i])
      invariant r.vedges == a.vedges && r.points.Keys == a.points.Keys
    {
      i := i - 1;
      assert Meshes.Wf(hs[i]) && Meshes.Simple(hs[i]) && StepRecorded(hs[i], hs[i + 1], log[i], a);
      UndoRecorded(r, a, hs[i], hs[i + 1], log[i]);
      r := Undo(r, log[i]);
    }
  }

  // ---------------------------------------------------------------------------
  // Recording the mesh's mutations
  // ---------------------------------------------------------------------------

  /** Making a point action only takes a point reference: the mesh keeps its invariant, simplicity and shape. */
  lemma PointActionKeeps(a: Arena, p: PointId, added: bool)
    requires Meshes.Wf(a) && p in a.points
    ensures var b := PointActionOf(a, p, added).0;
      Meshes.Wf(b) && Meshes.ShapeOf(b) == Meshes.ShapeOf(a) && (Meshes.Simple(a) ==> Meshes.Simple(b))
  {
    var b := PointActionOf(a, p, added).0;
    assert Meshes.SameTopology(a, b);
    Meshes.SameTopologyKeeps(a, b);
  }

  /** Making an edge action only adds a virtual edge: the mesh keeps its invariant, simplicity and shape. */
  lemma EdgeActionKeeps(a: Arena, x: EdgeId, added: bool)
    requires Meshes.Wf(a) && x in a.edges && a.edges[x].mirror in a.edges
    requires Edges.Start(a, x) in a.points && a.edges[x].end in a.points
    ensures var b := EdgeActionOf(a, x, added).0;
      Meshes.Wf(b) && Meshes.ShapeOf(b) == Meshes.ShapeOf(a) && (Meshes.Simple(a) ==> Meshes.Simple(b))
  {
    var b := EdgeActionOf(a, x, added).0;
    assert Meshes.SameTopology(a, b);
    Meshes.SameTopologyKeeps(a, b);
  }

  /** Making a triangle action only takes corner references: the mesh keeps its invariant, simplicity and shape. */
  lemma TriangleActionKeeps(a: Arena, t: TriId, added: bool)
    requires Meshes.Wf(a) && t in a.mesh.triangles
    ensures Meshes.TriangleWf(a, t)
    ensures var b := TriangleActionOf(a, t, added).0;
      Meshes.Wf(b) && Meshes.ShapeOf(b) == Meshes.ShapeOf(a) && (Meshes.Simple(a) ==> Meshes.Simple(b))
  {
    assert Meshes.TriangleWf(a, t);
    var b := TriangleActionOf(a, t, added).0;
    assert Meshes.SameTopology(a, b);
    Meshes.SameTopologyKeeps(a, b);
  }

  lemma TriangleActionShape(a: Arena, t: TriId, added: bool)
    requires Meshes.InArena(a) && Edges.Mirrored(a) && Meshes.EdgesClosed(a) && t in a.mesh.triangles && Meshes.TriangleWf(a, t)
    ensures Meshes.ShapeOf(TriangleActionOf(a, t, added).0) == Meshes.ShapeOf(a)
  {
    var b := TriangleActionOf(a, t, added).0;
    assert Meshes.SameTopology(a, b);
    Meshes.SameTopologyShape(a, b);
  }

  /** p2tr_mesh_new_point, then p2tr_mesh_action_new_point on the new point: one recorded step. */
  lemma RecordNewPoint(a: Arena, c: Vector2)
    requires Meshes.Wf(a) && Meshes.Simple(a)
    ensures var (b, p) := Meshes.NewPoint(a, c);
      var (b2, m) := PointActionOf(b, p, true);
      StepRecorded(a, b2, m, b2)
  {
    var (b, p) := Meshes.NewPoint(a, c);
    Meshes.NewPointKeeps(a, c);
    PointActionKeeps(b, p, true);
  }

  /** p2tr_mesh_action_del_point on a point with no edges left, then removing it from the mesh: one recorded step. */
  lemma RecordRemovePoint(a: Arena, p: PointId)
    requires Meshes.Wf(a) && Meshes.Simple(a) && p in a.mesh.points && a.points[p].outgoing == []
    ensures var (a2, m) := PointActionOf(a, p, false);
      && Meshes.Wf(a2)
      && var b := Meshes.OnPointRemoved(a2, p);
         StepRecorded(a2, b, m, b)
  {
    var (a2, m) := PointActionOf(a, p, false);
    PointActionKeeps(a, p, false);
    Meshes.OnPointRemovedKeeps(a2, p);
  }

  /** A real mutation, recorded by an action that resolves to it, is one recorded step. */
  lemma Step(h: Arena, h2: Arena, m: MeshAction, a: Arena, ch: Change)
    requires Resolvable(a, m) && Resolve(a, m) == ch
    requires Applicable(Meshes.ShapeOf(h), m.added, ch) && Meshes.ShapeOf(h2) == Forward(Meshes.ShapeOf(h), m.added, ch)
    ensures StepRecorded(h, h2, m, a)
  {
  }

  /** A new pair between distinct unjoined points is a real addition of the edge (s, e, c) to the shape. */
  lemma NewEdgeStep(a: Arena, s: PointId, e: PointId, c: bool)
    requires Meshes.Wf(a) && Meshes.Simple(a) && s in a.mesh.points && e in a.mesh.points
    requires s != e && !Meshes.HasEdge(a, s, e)
    ensures var (b, x) := Meshes.NewEdge(a, s, e, c);
      && Meshes.Wf(b) && Meshes.Simple(b) && x in b.edges && b.edges[x].mirror in b.edges
      && Edges.Start(b, x) == s && b.edges[x].end == e && b.edges[x].constrained == c
      && s in b.points && e in b.points
      && Applicable(Meshes.ShapeOf(a), true, EdgeChange(s, e, c))
      && Meshes.ShapeOf(b) == Forward(Meshes.ShapeOf(a), true, EdgeChange(s, e, c))
  {
    Meshes.NewEdgeKeeps(a, s, e, c);
    Meshes.HasEdgeMirror(a, s, e);
    Meshes.HasEdgeBySig(a, s, e);
    Meshes.HasEdgeBySig(a, e, s);
  }

  /**
   * p2tr_mesh_new_edge between two distinct unjoined points, then
   * p2tr_mesh_action_new_edge on the new half-edge: one recorded step.
   */
  lemma RecordNewEdge(a: Arena, s: PointId, e: PointId, c: bool)
    requires Meshes.Wf(a) && Meshes.Simple(a) && s in a.mesh.points && e in a.mesh.points
    requires s != e && !Meshes.HasEdge(a, s, e)
    ensures var (b, x) := Meshes.NewEdge(a, s, e, c);
      && Meshes.Wf(b) && x in b.edges && b.edges[x].mirror in b.edges
      && Edges.Start(b, x) in b.points && b.edges[x].end in b.points
      && var (b2, m) := EdgeActionOf(b, x, true);
         StepRecorded(a, b2, m, b2)
  {
    var (b, x) := Meshes.NewEdge(a, s, e, c);
    NewEdgeStep(a, s, e, c);
    EdgeActionKeeps(b, x, true);
    var (b2, m) := EdgeActionOf(b, x, true);
    Step(a, b2, m, b2, EdgeChange(s, e, c));
  }

  /** Removing a bare pair whose halves share their flag is a real removal of its edge from the shape. */
  lemma RemoveEdgeStep(a: Arena, x: EdgeId)
    requires Meshes.Wf(a) && Meshes.Simple(a) && x in a.mesh.edges
    requires a.edges[x].tri.None? && a.edges[a.edges[x].mirror].tri.None?
    requires a.edges[a.edges[x].mirror].constrained == a.edges[x].constrained
    ensures a.edges[x].mirror in a.edges
    ensures var ch := EdgeChange(Edges.Start(a, x), a.edges[x].end, a.edges[x].constrained);
      var b := Meshes.RemoveEdge(a, x);
      && Meshes.Wf(b) && Meshes.Simple(b)
      && Applicable(Meshes.ShapeOf(a), false, ch) && Meshes.ShapeOf(b) == Forward(Meshes.ShapeOf(a), false, ch)
  {
    var y := a.edges[x].mirror;
    Edges.MirrorInvolution(a, x);
    assert y in a.mesh.edges;
    Meshes.RemoveEdgeKeeps(a, x);
    Meshes.SigListed(a, x);
    Meshes.SigListed(a, y);
  }

  /**
   * p2tr_mesh_action_del_edge on a half-edge with no triangle on either side
   * whose mirror carries the same constrained flag, then removing the pair:
   * one recorded step.
   */
  lemma RecordRemoveEdge(a: Arena, x: EdgeId)
    requires Meshes.Wf(a) && Meshes.Simple(a) && x in a.mesh.edges
    requires a.edges[x].tri.None? && a.edges[a.edges[x].mirror].tri.None?
    requires a.edges[a.edges[x].mirror].constrained == a.edges[x].constrained
    ensures a.edges[x].mirror in a.edges && Edges.Start(a, x) in a.points && a.edges[x].end in a.points
    ensures var (a2, m) := EdgeActionOf(a, x, false);
      && Meshes.Wf(a2) && x in a2.mesh.edges
      && a2.edges[x].tri.None? && a2.edges[a2.edges[x].mirror].tri.None?
      && var b := Meshes.RemoveEdge(a2, x);
         StepRecorded(a2, b, m, b)
  {
    var y := a.edges[x].mirror;
    assert y in a.mesh.edges;
    EdgeActionKeeps(a, x, false);
    var (a2, m) := EdgeActionOf(a, x, false);
    RemoveEdgeStep(a2, x);
    var b := Meshes.RemoveEdge(a2, x);
    Step(a2, b, m, b, EdgeChange(Edges.Start(a, x), a.edges[x].end, a.edges[x].constrained));
  }

  /** A new triangle over a free chain is a real addition of the chain's signature to the shape. */
  lemma NewTriangleStep(a: Arena, ab: EdgeId, bc: EdgeId, ca: EdgeId)
    requires Meshes.Wf(a) && Meshes.Simple(a) && Meshes.FreeChain(a, ab, bc, ca)
    ensures var (b, t) := Meshes.NewTriangle(a, ab, bc, ca);
      && Meshes.InArena(b) && Edges.Mirrored(b) && Meshes.EdgesClosed(b) && t in b.mesh.triangles && Meshes.TriangleWf(b, t)
      && Meshes.TriSigOf(b, t) == Meshes.ChainSig(a, ab, bc, ca)
      && Meshes.ChainSig(a, ab, bc, ca) !in Meshes.TriSigs(a)
      && Meshes.ShapeOf(b) == Meshes.ShapeOf(a).(triangles := Meshes.TriSigs(a) + {Meshes.ChainSig(a, ab, bc, ca)})
  {
    var (b, t) := Meshes.NewTriangle(a, ab, bc, ca);
    Meshes.NewTriangleAddsTri(a, ab, bc, ca);
    Meshes.AddTriTriangles(a, b, t, ab, bc, ca);
    Meshes.AddTriShape(a, b, t, ab, bc, ca);
    Meshes.TriFreeBySig(a, ab);
  }

  lemma AddedTriangle(sh: Meshes.Shape, vt: VTriangle)
    ensures Forward(sh, true, TriangleChange(vt)) == sh.(triangles := sh.triangles + {TriItem(vt)})
  {
  }

  /** p2tr_mesh_new_triangle over a free chain, then p2tr_mesh_action_new_triangle on it: one recorded step. */
  lemma RecordNewTriangle(a: Arena, ab: EdgeId, bc: EdgeId, ca: EdgeId)
    requires Meshes.Wf(a) && Meshes.Simple(a) && Meshes.FreeChain(a, ab, bc, ca)
    ensures var (b, t) := Meshes.NewTriangle(a, ab, bc, ca);
      && Meshes.InArena(b) && Edges.Mirrored(b) && Meshes.EdgesClosed(b) && t in b.mesh.triangles && Meshes.TriangleWf(b, t)
      && var (b2, m) := TriangleActionOf(b, t, true);
         StepRecorded(a, b2, m, b2)
  {
    var (b, t) := Meshes.NewTriangle(a, ab, bc, ca);
    NewTriangleStep(a, ab, bc, ca);
    AddTriangleRecorded(a, b, t);
  }

  /** The addition of a triangle whose signature is new, recorded by an action made on it, is one recorded step. */
  lemma AddTriangleRecorded(a: Arena, b: Arena, t: TriId)
    requires Meshes.InArena(b) && Edges.Mirrored(b) && Meshes.EdgesClosed(b) && t in b.mesh.triangles && Meshes.TriangleWf(b, t)
    requires Meshes.TriSigOf(b, t) !in Meshes.TriSigs(a)
    requires Meshes.ShapeOf(b) == Meshes.ShapeOf(a).(triangles := Meshes.TriSigs(a) + {Meshes.TriSigOf(b, t)})
    ensures var (b2, m) := TriangleActionOf(b, t, true); StepRecorded(a, b2, m, b2)
  {
    TriangleActionShape(b, t, true);
    var (b2, m) := TriangleActionOf(b, t, true);
    var vt := Resolve(b2, m).t;
    AddedTriangle(Meshes.ShapeOf(a), vt);
    Step(a, b2, m, b2, TriangleChange(vt));
  }

  lemma RemovedTriangle(sh: Meshes.Shape, vt: VTriangle)
    ensures Forward(sh, false, TriangleChange(vt)) == sh.(triangles := sh.triangles - {TriItem(vt)})
  {
  }

  /** The removal of a triangle, recorded by an action that resolves to its signature, is one recorded step. */
  lemma RemoveTriangleRecorded(a: Arena, t: TriId, m: MeshAction)
    requires Meshes.Wf(a) && Meshes.Simple(a) && t in a.mesh.triangles
    requires Resolvable(a, m) && !m.added && Resolve(a, m).TriangleChange?
    requires TriItem(Resolve(a, m).t) == Meshes.TriSigOf(a, t)
    ensures var b := Meshes.RemoveTriangle(a, t); StepRecorded(a, b, m, b)
  {
    Meshes.RemoveTriangleShape(a, t);
    var b := Meshes.RemoveTriangle(a, t);
    var vt := Resolve(a, m).t;
    ResolveFrame(a, b, m);
    RemovedTriangle(Meshes.ShapeOf(a), vt);
    Step(a, b, m, b, TriangleChange(vt));
  }

  /** p2tr_mesh_action_del_triangle, then removing the triangle from the mesh: one recorded step. */
  lemma RecordRemoveTriangle(a: Arena, t: TriId)
    requires Meshes.Wf(a) && Meshes.Simple(a) && t in a.mesh.triangles
    ensures var (a2, m) := TriangleActionOf(a, t, false);
      && Meshes.Wf(a2) && t in a2.mesh.triangles
      && var b := Meshes.RemoveTriangle(a2, t);
         StepRecorded(a2, b, m, b)
  {
    var (a2, m) := TriangleActionOf(a, t, false);
    TriangleActionKeeps(a, t, false);
    assert Meshes.TriSigOf(a2, t) == Meshes.TriSigOf(a, t);
    RemoveTriangleRecorded(a2, t, m);
  }
}
