/**
 * The mesh of poly2tri-c/refine/mesh.h: its well-formedness invariant, its
 * abstract shape (the structural view under which undo is judged), and the
 * operations that add and remove points, half-edge pairs and triangles.
 */
module Meshes {
  import opened Wrappers
  import opened Topology
  import opened Edges
  import Points
  import Geometry

  // ---------------------------------------------------------------------------
  // Well-formedness
  // ---------------------------------------------------------------------------

  /** The mesh's membership sets only name allocated entities. */
  predicate InArena(a: Arena)
  {
    && a.mesh.points <= a.points.Keys
    && a.mesh.edges <= a.edges.Keys
    && a.mesh.triangles <= a.tris.Keys
  }

  /** Every edge of the mesh has its mirror and its end point in the mesh too. */
  predicate EdgesClosed(a: Arena)
    requires InArena(a) && Mirrored(a)
  {
    forall e :: e in a.mesh.edges ==> a.edges[e].mirror in a.mesh.edges && a.edges[e].end in a.mesh.points
  }

  /** A point's mesh back-link names this mesh exactly when the point is a member. */
  predicate PointsOwned(a: Arena)
  {
    forall p :: p in a.points ==> a.points[p].mesh == (if p in a.mesh.points then Some(a.id) else None)
  }

  /**
   * Each point's outgoing list holds exactly the mesh's half-edges that start
   * at it.
   */
  predicate OutgoingExact(a: Arena)
    requires InArena(a) && Mirrored(a) && EdgesClosed(a)
  {
    && (forall p, e :: p in a.points && e in a.points[p].outgoing ==> e in a.mesh.edges && Start(a, e) == p)
    && (forall e :: e in a.mesh.edges ==> e in a.points[Start(a, e)].outgoing)
  }

  /** The three sides of a triangle. */
  function Sides(t: Triangle): set<EdgeId>
  {
    {t.ab, t.bc, t.ca}
  }

  /**
   * Triangle `t` of the mesh: its sides are mesh edges that chain head to
   * tail (AB ends where BC starts, BC ends where CA starts, CA ends where AB
   * starts) and each side names `t` as the triangle it runs around.
   */
  predicate TriangleWf(a: Arena, t: TriId)
    requires InArena(a) && Mirrored(a) && t in a.tris
  {
    var tr := a.tris[t];
    && tr.ab in a.mesh.edges && tr.bc in a.mesh.edges && tr.ca in a.mesh.edges
    && a.edges[tr.ab].end == Start(a, tr.bc)
    && a.edges[tr.bc].end == Start(a, tr.ca)
    && a.edges[tr.ca].end == Start(a, tr.ab)
    && a.edges[tr.ab].tri == Some(t) && a.edges[tr.bc].tri == Some(t) && a.edges[tr.ca].tri == Some(t)
  }

  predicate TrianglesWf(a: Arena)
    requires InArena(a) && Mirrored(a)
  {
    forall t :: t in a.mesh.triangles ==> TriangleWf(a, t)
  }

  /** A mesh edge that names a triangle is one of that mesh triangle's sides. */
  predicate SidesLinked(a: Arena)
    requires InArena(a)
  {
    forall e :: e in a.mesh.edges && a.edges[e].tri.Some? ==>
      a.edges[e].tri.value in a.mesh.triangles && e in Sides(a.tris[a.edges[e].tri.value])
  }

  /** The representation invariant of the arena and its mesh. */
  predicate Wf(a: Arena)
  {
    && Allocated(a)
    && InArena(a)
    && Mirrored(a)
    && EdgesClosed(a)
    && PointsOwned(a)
    && OutgoingExact(a)
    && TrianglesWf(a)
    && SidesLinked(a)
  }

  /** No half-edge of the mesh is a loop, and no two run between the same ordered pair of points. */
  predicate Simple(a: Arena)
  {
    && (forall e :: e in a.mesh.edges ==> SideOf(a, e).0 != SideOf(a, e).1)
    && (forall e1, e2 :: e1 in a.mesh.edges && e2 in a.mesh.edges && SideOf(a, e1) == SideOf(a, e2) ==> e1 == e2)
  }

  /** The mesh has a half-edge from `s` to `e`. */
  predicate HasEdge(a: Arena, s: PointId, e: PointId)
  {
    exists x :: x in a.mesh.edges && SideOf(a, x) == (s, e)
  }

  // ---------------------------------------------------------------------------
  // Shape: the mesh up to the identity of its edges and triangles
  // ---------------------------------------------------------------------------

  type EdgeSig = (PointId, PointId, bool)
  type TriSig = set<(PointId, PointId)>

  /**
   * The mesh's point set, the (start, end, constrained) signature of every
   * half-edge, and for every triangle the set of its directed sides.
   */
  datatype Shape = Shape(points: set<PointId>, edges: set<EdgeSig>, triangles: set<TriSig>)

  /** A half-edge's (start, end, constrained) signature; (0, 0, false) for an id without an allocated pair. */
  function Sig(a: Arena, e: EdgeId): EdgeSig
  {
    if e in a.edges && a.edges[e].mirror in a.edges then (Start(a, e), a.edges[e].end, a.edges[e].constrained)
    else (0, 0, false)
  }

  /** A half-edge as the directed side (start, end); (0, 0) for an id without an allocated pair. */
  function SideOf(a: Arena, e: EdgeId): (PointId, PointId)
  {
    if e in a.edges && a.edges[e].mirror in a.edges then (Start(a, e), a.edges[e].end) else (0, 0)
  }

  /** A triangle as the set of its directed sides; empty for an unallocated id. */
  function TriSigOf(a: Arena, t: TriId): TriSig
  {
    if t in a.tris then {SideOf(a, a.tris[t].ab), SideOf(a, a.tris[t].bc), SideOf(a, a.tris[t].ca)} else {}
  }

  function EdgeSigs(a: Arena): set<EdgeSig>
  {
    set e | e in a.mesh.edges :: Sig(a, e)
  }

  function TriSigs(a: Arena): set<TriSig>
  {
    set t | t in a.mesh.triangles :: TriSigOf(a, t)
  }

  function ShapeOf(a: Arena): Shape
  {
    Shape(a.mesh.points, EdgeSigs(a), TriSigs(a))
  }

  // ---------------------------------------------------------------------------
  // Changes that leave the topology alone
  // ---------------------------------------------------------------------------

  /**
   * `b` differs from `a` at most in reference counts, delaunay flags, virtual
   * edges and the allocator: every link the invariant and the shape read is
   * the same.
   */
  predicate SameTopology(a: Arena, b: Arena)
  {
    && a.id == b.id
    && a.mesh.points == b.mesh.points && a.mesh.edges == b.mesh.edges && a.mesh.triangles == b.mesh.triangles
    && a.points.Keys == b.points.Keys
    && (forall p :: p in a.points ==>
          b.points[p].outgoing == a.points[p].outgoing && b.points[p].mesh == a.points[p].mesh)
    && a.edges.Keys == b.edges.Keys
    && (forall e :: e in a.edges ==>
          && b.edges[e].end == a.edges[e].end && b.edges[e].mirror == a.edges[e].mirror
          && b.edges[e].tri == a.edges[e].tri && b.edges[e].constrained == a.edges[e].constrained)
    && a.tris.Keys == b.tris.Keys
    && (forall t :: t in a.tris ==>
          b.tris[t].ab == a.tris[t].ab && b.tris[t].bc == a.tris[t].bc && b.tris[t].ca == a.tris[t].ca)
  }

  lemma SameTopologyStarts(a: Arena, b: Arena)
    requires Mirrored(a) && SameTopology(a, b)
    ensures Mirrored(b)
    ensures forall e :: e in a.edges ==> Start(b, e) == Start(a, e)
  {
  }

  lemma SameTopologyClosed(a: Arena, b: Arena)
    requires InArena(a) && Mirrored(a) && EdgesClosed(a) && SameTopology(a, b)
    ensures InArena(b) && Mirrored(b) && EdgesClosed(b)
  {
    SameTopologyStarts(a, b);
  }

  lemma SameTopologyOutgoing(a: Arena, b: Arena)
    requires InArena(a) && Mirrored(a) && EdgesClosed(a) && OutgoingExact(a) && SameTopology(a, b)
    ensures InArena(b) && Mirrored(b) && EdgesClosed(b) && OutgoingExact(b)
  {
    SameTopologyStarts(a, b);
    SameTopologyClosed(a, b);
    forall p, e | p in b.points && e in b.points[p].outgoing
      ensures e in b.mesh.edges && Start(b, e) == p
    {
      assert e in a.points[p].outgoing;
    }
    forall e | e in b.mesh.edges
      ensures e in b.points[Start(b, e)].outgoing
    {
      assert e in a.points[Start(a, e)].outgoing;
    }
  }

  lemma SameTopologyPoints(a: Arena, b: Arena)
    requires InArena(a) && Mirrored(a) && EdgesClosed(a) && PointsOwned(a) && OutgoingExact(a)
    requires SameTopology(a, b)
    ensures InArena(b) && Mirrored(b) && EdgesClosed(b) && PointsOwned(b) && OutgoingExact(b)
  {
    SameTopologyOutgoing(a, b);
  }

  lemma SameTopologyTriangles(a: Arena, b: Arena)
    requires InArena(a) && Mirrored(a) && TrianglesWf(a) && SidesLinked(a) && SameTopology(a, b)
    ensures InArena(b) && Mirrored(b) && TrianglesWf(b) && SidesLinked(b)
  {
    SameTopologyStarts(a, b);
    forall t | t in b.mesh.triangles
      ensures TriangleWf(b, t)
    {
      assert TriangleWf(a, t);
    }
  }

  lemma SameTopologyWf(a: Arena, b: Arena)
    requires Wf(a) && SameTopology(a, b) && Allocated(b)
    ensures Wf(b)
  {
    SameTopologyPoints(a, b);
    SameTopologyTriangles(a, b);
  }

  lemma SameTopologyShape(a: Arena, b: Arena)
    requires SameTopology(a, b)
    ensures ShapeOf(b) == ShapeOf(a)
  {
    forall e | e in a.mesh.edges
      ensures Sig(b, e) == Sig(a, e)
    {
    }
    assert EdgeSigs(b) == EdgeSigs(a);
    forall t | t in a.mesh.triangles
      ensures TriSigOf(b, t) == TriSigOf(a, t)
    {
      if t in a.tris {
        var tr := a.tris[t];
        assert SideOf(b, tr.ab) == SideOf(a, tr.ab);
        assert SideOf(b, tr.bc) == SideOf(a, tr.bc);
        assert SideOf(b, tr.ca) == SideOf(a, tr.ca);
      }
    }
    assert TriSigs(b) == TriSigs(a);
  }

  lemma SameTopologySimple(a: Arena, b: Arena)
    requires SameTopology(a, b) && Simple(a)
    ensures Simple(b)
  {
    assert forall e :: e in a.mesh.edges ==> SideOf(b, e) == SideOf(a, e);
  }

  /**
   * Two arenas with the same half-edges, triangles and mesh edge and triangle
   * sets have the same edge and triangle signatures and are equally simple.
   */
  lemma EdgesUntouched(a: Arena, b: Arena)
    requires b.edges == a.edges && b.tris == a.tris
    requires b.mesh.edges == a.mesh.edges && b.mesh.triangles == a.mesh.triangles
    ensures EdgeSigs(b) == EdgeSigs(a) && TriSigs(b) == TriSigs(a)
    ensures Simple(b) == Simple(a)
  {
    assert forall e :: SideOf(b, e) == SideOf(a, e);
    assert forall e :: Sig(b, e) == Sig(a, e);
    assert forall t :: TriSigOf(b, t) == TriSigOf(a, t);
  }

  /** Such a change keeps the invariant, the simplicity and the shape. */
  lemma SameTopologyKeeps(a: Arena, b: Arena)
    requires Wf(a) && SameTopology(a, b) && Allocated(b)
    ensures Wf(b) && ShapeOf(b) == ShapeOf(a)
    ensures Simple(a) ==> Simple(b)
  {
    SameTopologyWf(a, b);
    SameTopologyShape(a, b);
    if Simple(a) {
      SameTopologySimple(a, b);
    }
  }

  /** p2tr_mesh_ref: one more reference to the mesh; its contents do not change. */
  function Ref(a: Arena): (r: Arena)
    ensures r.mesh.refcount == a.mesh.refcount + 1
    ensures r.mesh == a.mesh.(refcount := r.mesh.refcount)
    ensures r == a.(mesh := r.mesh)
  {
    a.(mesh := a.mesh.(refcount := a.mesh.refcount + 1))
  }

  /** p2tr_mesh_unref: release one reference to the mesh, which must hold one; its contents do not change. */
  function Unref(a: Arena): (r: Arena)
    requires a.mesh.refcount > 0
    ensures r.mesh.refcount == a.mesh.refcount - 1
    ensures r.mesh == a.mesh.(refcount := r.mesh.refcount)
    ensures r == a.(mesh := r.mesh)
  {
    a.(mesh := a.mesh.(refcount := a.mesh.refcount - 1))
  }

  /** Taking and then releasing a mesh reference is no change at all, and neither touches the topology. */
  lemma RefThenUnref(a: Arena)
    requires Wf(a)
    ensures Unref(Ref(a)) == a
    ensures Wf(Ref(a)) && ShapeOf(Ref(a)) == ShapeOf(a)
  {
    SameTopologyKeeps(a, Ref(a));
  }

  // ---------------------------------------------------------------------------
  // Points
  // ---------------------------------------------------------------------------

  /**
   * p2tr_mesh_new_point: a fresh point at `c` joins the mesh, with no edges
   * and one reference, owned by the caller.
   */
  function NewPoint(a: Arena, c: Vector2): (r: (Arena, PointId))
    requires Wf(a)
    ensures r.1 !in a.points && r.1 in r.0.points
    ensures r.0.points[r.1] == Point(c, [], Some(a.id), 1)
    ensures forall q :: q in a.points ==> q in r.0.points && r.0.points[q] == a.points[q]
    ensures r.0.mesh.points == a.mesh.points + {r.1}
    ensures r.0.mesh.edges == a.mesh.edges && r.0.mesh.triangles == a.mesh.triangles
    ensures r.0.edges == a.edges && r.0.tris == a.tris && r.0.vedges == a.vedges && r.0.id == a.id
    ensures r.0.mesh.refcount == a.mesh.refcount && r.0.next >= a.next
  {
    var p := a.next;
    (a.(points := a.points[p := Point(c, [], Some(a.id), 1)],
        mesh := a.mesh.(points := a.mesh.points + {p}),
        next := a.next + 1),
     p)
  }

  /**
   * A change confined to the points and the mesh's point set leaves the
   * triangle invariants, the edge and triangle signatures and simplicity as
   * they were.
   */
  lemma PointsFrame(a: Arena, b: Arena)
    requires InArena(a) && Mirrored(a) && TrianglesWf(a) && SidesLinked(a)
    requires b.edges == a.edges && b.tris == a.tris
    requires b.mesh.edges == a.mesh.edges && b.mesh.triangles == a.mesh.triangles
    requires b.mesh.points <= b.points.Keys
    ensures InArena(b) && Mirrored(b) && TrianglesWf(b) && SidesLinked(b)
    ensures EdgeSigs(b) == EdgeSigs(a) && TriSigs(b) == TriSigs(a) && Simple(b) == Simple(a)
  {
    forall t | t in b.mesh.triangles
      ensures TriangleWf(b, t)
    {
      assert TriangleWf(a, t);
    }
    EdgesUntouched(a, b);
  }

  lemma NewPointLinks(a: Arena, b: Arena, p: PointId, c: Vector2)
    requires InArena(a) && Mirrored(a) && EdgesClosed(a) && PointsOwned(a) && OutgoingExact(a)
    requires p !in a.points && b.points == a.points[p := Point(c, [], Some(a.id), 1)]
    requires b.mesh.points == a.mesh.points + {p} && b.id == a.id
    requires b.edges == a.edges && b.tris == a.tris && b.mesh.edges == a.mesh.edges
    requires b.mesh.triangles == a.mesh.triangles
    ensures InArena(b) && Mirrored(b) && EdgesClosed(b) && PointsOwned(b) && OutgoingExact(b)
  {
  }

  /** A new point keeps the mesh well formed and simple, and adds exactly that point to its shape. */
  lemma NewPointKeeps(a: Arena, c: Vector2)
    requires Wf(a)
    ensures var (b, p) := NewPoint(a, c);
      && Wf(b)
      && (Simple(a) ==> Simple(b))
      && ShapeOf(b) == Shape(ShapeOf(a).points + {p}, ShapeOf(a).edges, ShapeOf(a).triangles)
  {
    var (b, p) := NewPoint(a, c);
    assert b.points == a.points[p := Point(c, [], Some(a.id), 1)];
    PointsFrame(a, b);
    NewPointLinks(a, b, p, c);
  }

  /**
   * p2tr_mesh_on_point_removed: the point leaves the mesh's point set and its
   * back-link to the mesh is cleared; nothing else changes.
   */
  function OnPointRemoved(a: Arena, p: PointId): (r: Arena)
    requires p in a.points
    ensures r.mesh.points == a.mesh.points - {p}
    ensures r.points.Keys == a.points.Keys && r.points[p].mesh == None
    ensures r.points[p] == a.points[p].(mesh := None)
    ensures forall q :: q in a.points && q != p ==> r.points[q] == a.points[q]
    ensures r == a.(points := r.points, mesh := r.mesh)
    ensures r.mesh == a.mesh.(points := r.mesh.points)
  {
    a.(points := a.points[p := a.points[p].(mesh := None)], mesh := a.mesh.(points := a.mesh.points - {p}))
  }

  lemma RemovedPointLinks(a: Arena, p: PointId)
    requires InArena(a) && Mirrored(a) && EdgesClosed(a) && PointsOwned(a) && OutgoingExact(a)
    requires p in a.mesh.points && a.points[p].outgoing == []
    ensures var b := OnPointRemoved(a, p);
      InArena(b) && Mirrored(b) && EdgesClosed(b) && PointsOwned(b) && OutgoingExact(b)
  {
    var b := OnPointRemoved(a, p);
    forall e | e in b.mesh.edges
      ensures a.edges[e].end != p
    {
      var m := a.edges[e].mirror;
      assert m in a.mesh.edges && Start(a, m) == a.edges[e].end;
      assert m in a.points[Start(a, m)].outgoing;
    }
  }

  /**
   * Removing a point that has no edges left keeps the mesh well formed and
   * simple and removes exactly that point from its shape.
   */
  lemma OnPointRemovedKeeps(a: Arena, p: PointId)
    requires Wf(a) && p in a.mesh.points && a.points[p].outgoing == []
    ensures var b := OnPointRemoved(a, p);
      && Wf(b)
      && (Simple(a) ==> Simple(b))
      && ShapeOf(b) == Shape(ShapeOf(a).points - {p}, ShapeOf(a).edges, ShapeOf(a).triangles)
  {
    var b := OnPointRemoved(a, p);
    PointsFrame(a, b);
    RemovedPointLinks(a, p);
  }

  /**
   * The inverse of OnPointRemoved: an allocated point outside the mesh
   * rejoins the mesh's point set and its back-link names the mesh again.
   */
  function Readmit(a: Arena, p: PointId): (r: Arena)
    requires p in a.points
    ensures r.mesh.points == a.mesh.points + {p}
    ensures r.points.Keys == a.points.Keys && r.points[p].mesh == Some(a.id)
    ensures r.points[p] == a.points[p].(mesh := Some(a.id))
    ensures forall q :: q in a.points && q != p ==> r.points[q] == a.points[q]
    ensures r == a.(points := r.points, mesh := r.mesh)
    ensures r.mesh == a.mesh.(points := r.mesh.points)
  {
    a.(points := a.points[p := a.points[p].(mesh := Some(a.id))], mesh := a.mesh.(points := a.mesh.points + {p}))
  }

  lemma ReadmittedPointLinks(a: Arena, p: PointId)
    requires InArena(a) && Mirrored(a) && EdgesClosed(a) && PointsOwned(a) && OutgoingExact(a)
    requires p in a.points && p !in a.mesh.points
    ensures var b := Readmit(a, p);
      InArena(b) && Mirrored(b) && EdgesClosed(b) && PointsOwned(b) && OutgoingExact(b)
  {
  }

  /** Readmitting a point keeps the mesh well formed and simple and adds exactly that point to its shape. */
  lemma ReadmitKeeps(a: Arena, p: PointId)
    requires Wf(a) && p in a.points && p !in a.mesh.points
    ensures var b := Readmit(a, p);
      && Wf(b)
      && (Simple(a) ==> Simple(b))
      && ShapeOf(b) == Shape(ShapeOf(a).points + {p}, ShapeOf(a).edges, ShapeOf(a).triangles)
  {
    var b := Readmit(a, p);
    PointsFrame(a, b);
    ReadmittedPointLinks(a, p);
  }

  // ---------------------------------------------------------------------------
  // Half-edge pairs
  // ---------------------------------------------------------------------------

  /** How NewEdge changes the arena, stated once for the lemmas below. */
  ghost predicate AddsPair(a: Arena, b: Arena, x: EdgeId, y: EdgeId, s: PointId, e: PointId, c: bool)
  {
    && x !in a.edges && y !in a.edges && x != y
    && s in a.points && e in a.points
    && b.edges == a.edges[x := Edge(e, y, c, None, false, 1)][y := Edge(s, x, c, None, false, 0)]
    && b.points.Keys == a.points.Keys
    && b.points[s].outgoing == a.points[s].outgoing + [x] + (if s == e then [y] else [])
    && (s != e ==> b.points[e].outgoing == a.points[e].outgoing + [y])
    && (forall q :: q in a.points && q != s && q != e ==> b.points[q].outgoing == a.points[q].outgoing)
    && (forall q :: q in a.points ==> b.points[q] == a.points[q].(outgoing := b.points[q].outgoing))
    && b.mesh == a.mesh.(edges := a.mesh.edges + {x, y})
    && b.tris == a.tris && b.vedges == a.vedges && b.id == a.id
  }

  /**
   * p2tr_mesh_new_edge: a fresh pair of half-edges joins the mesh, one from
   * `s` to `e` (returned, with the caller's reference) and its mirror from
   * `e` to `s`, both with the given constrained flag and no triangle. Each
   * becomes the last outgoing edge of its start point; no other point,
   * half-edge or triangle changes.
   */
  function NewEdge(a: Arena, s: PointId, e: PointId, constrained: bool): (r: (Arena, EdgeId))
    requires Allocated(a) && s in a.points && e in a.points
    ensures r.1 !in a.edges && r.1 in r.0.edges && r.0.edges[r.1] == Edge(e, r.0.edges[r.1].mirror, constrained, None, false, 1)
    ensures AddsPair(a, r.0, r.1, r.0.edges[r.1].mirror, s, e, constrained)
    ensures Allocated(r.0)
  {
    var x := a.next;
    var y := a.next + 1;
    var edges := a.edges[x := Edge(e, y, constrained, None, false, 1)][y := Edge(s, x, constrained, None, false, 0)];
    var ps :=
      if s == e then a.points[s := a.points[s].(outgoing := a.points[s].outgoing + [x] + [y])]
      else a.points[s := a.points[s].(outgoing := a.points[s].outgoing + [x])]
                   [e := a.points[e].(outgoing := a.points[e].outgoing + [y])];
    (a.(points := ps, edges := edges, mesh := a.mesh.(edges := a.mesh.edges + {x, y}), next := a.next + 2), x)
  }

  lemma PairLinks(a: Arena, b: Arena, x: EdgeId, y: EdgeId, s: PointId, e: PointId, c: bool)
    requires Mirrored(a) && AddsPair(a, b, x, y, s, e, c)
    ensures Mirrored(b) && SameLinks(a, b)
    ensures Start(b, x) == s && Start(b, y) == e
    ensures forall z :: z in a.edges ==> Start(b, z) == Start(a, z)
  {
    assert b.edges[x] == Edge(e, y, c, None, false, 1);
    assert b.edges[y] == Edge(s, x, c, None, false, 0);
    assert forall z :: z in a.edges ==> b.edges[z] == a.edges[z];
    forall z | z in b.edges
      ensures b.edges[z].mirror in b.edges && b.edges[z].mirror != z && b.edges[b.edges[z].mirror].mirror == z
    {
      if z != x && z != y {
        assert z in a.edges;
      }
    }
  }

  lemma PairClosed(a: Arena, b: Arena, x: EdgeId, y: EdgeId, s: PointId, e: PointId, c: bool)
    requires InArena(a) && Mirrored(a) && EdgesClosed(a) && AddsPair(a, b, x, y, s, e, c)
    requires s in a.mesh.points && e in a.mesh.points
    ensures InArena(b) && Mirrored(b) && EdgesClosed(b) && PointsOwned(a) == PointsOwned(b)
  {
    PairLinks(a, b, x, y, s, e, c);
  }

  lemma PairOutgoingFrom(a: Arena, b: Arena, x: EdgeId, y: EdgeId, s: PointId, e: PointId, c: bool)
    requires InArena(a) && Mirrored(a) && EdgesClosed(a) && OutgoingExact(a) && AddsPair(a, b, x, y, s, e, c)
    requires s in a.mesh.points && e in a.mesh.points
    ensures forall q, z :: q in b.points && z in b.points[q].outgoing ==> z in b.mesh.edges && Start(b, z) == q
  {
    PairLinks(a, b, x, y, s, e, c);
    forall q, z | q in b.points && z in b.points[q].outgoing
      ensures z in b.mesh.edges && Start(b, z) == q
    {
      if q == s {
        assert z in a.points[s].outgoing + [x] + (if s == e then [y] else []);
      } else if q == e {
        assert z in a.points[e].outgoing + [y];
      } else {
        assert z in a.points[q].outgoing;
      }
    }
  }

  lemma PairOutgoingTo(a: Arena, b: Arena, x: EdgeId, y: EdgeId, s: PointId, e: PointId, c: bool)
    requires InArena(a) && Mirrored(a) && EdgesClosed(a) && OutgoingExact(a) && AddsPair(a, b, x, y, s, e, c)
    requires s in a.mesh.points && e in a.mesh.points
    ensures InArena(b) && Mirrored(b)
    ensures forall z :: z in b.mesh.edges ==> z in b.points[Start(b, z)].outgoing
  {
    PairLinks(a, b, x, y, s, e, c);
    forall z | z in b.mesh.edges
      ensures z in b.points[Start(b, z)].outgoing
    {
      if z == x {
        assert x in a.points[s].outgoing + [x] + (if s == e then [y] else []);
      } else if z == y {
        if s == e {
          assert y in a.points[s].outgoing + [x] + [y];
        } else {
          assert y in a.points[e].outgoing + [y];
        }
      } else {
        var q := Start(a, z);
        assert z in a.points[q].outgoing;
        if q == s {
          assert z in a.points[s].outgoing + [x] + (if s == e then [y] else []);
        } else if q == e {
          assert z in a.points[e].outgoing + [y];
        }
      }
    }
  }

  lemma PairTriangles(a: Arena, b: Arena, x: EdgeId, y: EdgeId, s: PointId, e: PointId, c: bool)
    requires InArena(a) && Mirrored(a) && TrianglesWf(a) && SidesLinked(a) && AddsPair(a, b, x, y, s, e, c)
    requires s in a.mesh.points && e in a.mesh.points
    ensures InArena(b) && Mirrored(b) && TrianglesWf(b) && SidesLinked(b)
    ensures forall t :: t in a.mesh.triangles ==> TriSigOf(b, t) == TriSigOf(a, t)
  {
    PairLinks(a, b, x, y, s, e, c);
    forall t | t in b.mesh.triangles
      ensures TriangleWf(b, t)
    {
      assert TriangleWf(a, t);
    }
    forall t | t in a.mesh.triangles
      ensures TriSigOf(b, t) == TriSigOf(a, t)
    {
      assert TriangleWf(a, t);
    }
  }

  lemma PairSigs(a: Arena, b: Arena, x: EdgeId, y: EdgeId, s: PointId, e: PointId, c: bool)
    requires InArena(a) && Mirrored(a) && AddsPair(a, b, x, y, s, e, c)
    ensures EdgeSigs(b) == EdgeSigs(a) + {(s, e, c), (e, s, c)}
  {
    PairLinks(a, b, x, y, s, e, c);
    assert Sig(b, x) == (s, e, c) && Sig(b, y) == (e, s, c);
    assert forall z :: z in a.mesh.edges ==> Sig(b, z) == Sig(a, z);
  }

  lemma PairSimple(a: Arena, b: Arena, x: EdgeId, y: EdgeId, s: PointId, e: PointId, c: bool)
    requires InArena(a) && Mirrored(a) && EdgesClosed(a) && AddsPair(a, b, x, y, s, e, c)
    requires Simple(a) && s != e && !HasEdge(a, s, e)
    ensures Simple(b)
  {
    PairLinks(a, b, x, y, s, e, c);
    forall z | z in a.mesh.edges
      ensures SideOf(a, z) != (e, s) && SideOf(b, z) == SideOf(a, z)
    {
      MirrorInvolution(a, z);
      assert a.edges[z].mirror in a.mesh.edges;
    }
    assert SideOf(b, x) == (s, e) && SideOf(b, y) == (e, s);
    forall z1, z2 | z1 in b.mesh.edges && z2 in b.mesh.edges && SideOf(b, z1) == SideOf(b, z2)
      ensures z1 == z2
    {
      if z1 in a.mesh.edges && z2 in a.mesh.edges {
      } else if z1 in a.mesh.edges {
      } else if z2 in a.mesh.edges {
      }
    }
  }

  lemma PairWf(a: Arena, b: Arena, x: EdgeId, y: EdgeId, s: PointId, e: PointId, c: bool)
    requires Wf(a) && AddsPair(a, b, x, y, s, e, c) && Allocated(b)
    requires s in a.mesh.points && e in a.mesh.points
    ensures Wf(b)
  {
    PairClosed(a, b, x, y, s, e, c);
    PairOutgoing(a, b, x, y, s, e, c);
    PairTriangles(a, b, x, y, s, e, c);
  }

  lemma PairOutgoing(a: Arena, b: Arena, x: EdgeId, y: EdgeId, s: PointId, e: PointId, c: bool)
    requires Wf(a) && AddsPair(a, b, x, y, s, e, c)
    requires s in a.mesh.points && e in a.mesh.points
    ensures InArena(b) && Mirrored(b) && EdgesClosed(b) && OutgoingExact(b)
  {
    PairClosed(a, b, x, y, s, e, c);
    PairOutgoingFrom(a, b, x, y, s, e, c);
    PairOutgoingTo(a, b, x, y, s, e, c);
  }

  lemma PairShape(a: Arena, b: Arena, x: EdgeId, y: EdgeId, s: PointId, e: PointId, c: bool)
    requires Wf(a) && AddsPair(a, b, x, y, s, e, c)
    requires s in a.mesh.points && e in a.mesh.points
    ensures ShapeOf(b) == Shape(ShapeOf(a).points, ShapeOf(a).edges + {(s, e, c), (e, s, c)}, ShapeOf(a).triangles)
  {
    PairTriangles(a, b, x, y, s, e, c);
    PairSigs(a, b, x, y, s, e, c);
    assert TriSigs(b) == TriSigs(a);
  }

  /**
   * A new pair keeps the mesh well formed and adds exactly its two
   * signatures to the shape; it keeps the mesh simple when it is not a loop
   * and the mesh had no half-edge from `s` to `e` already.
   */
  lemma NewEdgeKeeps(a: Arena, s: PointId, e: PointId, constrained: bool)
    requires Wf(a) && s in a.mesh.points && e in a.mesh.points
    ensures var (b, x) := NewEdge(a, s, e, constrained);
      && Wf(b)
      && Start(b, x) == s
      && ShapeOf(b) == Shape(ShapeOf(a).points, ShapeOf(a).edges + {(s, e, constrained), (e, s, constrained)},
                             ShapeOf(a).triangles)
      && (Simple(a) && s != e && !HasEdge(a, s, e) ==> Simple(b))
  {
    var (b, x) := NewEdge(a, s, e, constrained);
    var y := b.edges[x].mirror;
    PairLinks(a, b, x, y, s, e, constrained);
    PairWf(a, b, x, y, s, e, constrained);
    PairShape(a, b, x, y, s, e, constrained);
    if Simple(a) && s != e && !HasEdge(a, s, e) {
      PairSimple(a, b, x, y, s, e, constrained);
    }
  }

  // ---------------------------------------------------------------------------
  // Looking up a half-edge by its end points
  // ---------------------------------------------------------------------------

  /**
   * In a well-formed mesh, the outgoing-edge lookup from a member point finds
   * a half-edge exactly when the mesh has one from `s` to `e`, and what it
   * finds is such a half-edge.
   */
  lemma EdgeToMatches(a: Arena, s: PointId, e: PointId)
    requires Wf(a) && s in a.points
    ensures Points.OutgoingAllocated(a, s)
    ensures Points.EdgeTo(a, s, e).Some? <==> HasEdge(a, s, e)
    ensures Points.EdgeTo(a, s, e).Some? ==>
      Points.EdgeTo(a, s, e).value in a.mesh.edges && SideOf(a, Points.EdgeTo(a, s, e).value) == (s, e)
  {
    assert InArena(a) && Mirrored(a) && OutgoingExact(a);
    assert Points.OutgoingAllocated(a, s);
    if HasEdge(a, s, e) {
      var x :| x in a.mesh.edges && SideOf(a, x) == (s, e);
      assert x in a.points[Start(a, x)].outgoing;
    }
    var r := Points.EdgeTo(a, s, e);
    if r.Some? {
      var y := r.value;
      assert y in a.mesh.edges && Start(a, y) == s;
      assert SideOf(a, y) == (s, e);
    }
  }

  /** In a simple mesh the lookup finds the one half-edge from `s` to `e`. */
  lemma EdgeToUnique(a: Arena, x: EdgeId)
    requires Wf(a) && Simple(a) && x in a.mesh.edges
    ensures SideOf(a, x).0 in a.points && Points.OutgoingAllocated(a, SideOf(a, x).0)
    ensures Points.EdgeTo(a, SideOf(a, x).0, SideOf(a, x).1) == Some(x)
  {
    var (s, e) := SideOf(a, x);
    EdgeToMatches(a, s, e);
  }

  // ---------------------------------------------------------------------------
  // Removing a half-edge pair
  // ---------------------------------------------------------------------------

  /** The list with every occurrence of `x` taken out, the rest in order. */
  function Without(xs: seq<EdgeId>, x: EdgeId): (r: seq<EdgeId>)
    ensures forall z :: z in r <==> z in xs && z != x
    ensures |r| <= |xs|
  {
    if xs == [] then []
    else if xs[0] == x then Without(xs[1..], x)
    else [xs[0]] + Without(xs[1..], x)
  }

  /**
   * p2tr_mesh_on_edge_removed: the half-edge and its mirror leave the mesh's
   * edge set; nothing else changes.
   */
  function OnEdgeRemoved(a: Arena, x: EdgeId): (r: Arena)
    requires x in a.edges
    ensures r.mesh.edges == a.mesh.edges - {x, a.edges[x].mirror}
    ensures r == a.(mesh := a.mesh.(edges := r.mesh.edges))
  {
    a.(mesh := a.mesh.(edges := a.mesh.edges - {x, a.edges[x].mirror}))
  }

  /**
   * Removing a half-edge pair that has no triangle on either side: the pair
   * is detached from the outgoing lists of its two end points and then
   * leaves the mesh through OnEdgeRemoved. The records stay allocated.
   */
  function RemoveEdge(a: Arena, x: EdgeId): (r: Arena)
    requires Wf(a) && x in a.mesh.edges
    requires a.edges[x].tri.None? && a.edges[a.edges[x].mirror].tri.None?
    ensures r.mesh == a.mesh.(edges := a.mesh.edges - {x, a.edges[x].mirror})
    ensures r.edges == a.edges && r.tris == a.tris && r.vedges == a.vedges && r.id == a.id && r.next == a.next
    ensures r.points.Keys == a.points.Keys
    ensures forall q :: q in a.points ==> r.points[q] == a.points[q].(outgoing := r.points[q].outgoing)
  {
    var y := a.edges[x].mirror;
    var s := Start(a, x);
    var e := a.edges[x].end;
    var ps := a.points[s := a.points[s].(outgoing := Without(a.points[s].outgoing, x))];
    var ps' := ps[e := ps[e].(outgoing := Without(ps[e].outgoing, y))];
    OnEdgeRemoved(a.(points := ps'), x)
  }

  /**
   * After RemoveEdge, every point's outgoing list holds what it held before
   * except the removed pair.
   */
  lemma RemoveEdgeOutgoing(a: Arena, x: EdgeId)
    requires Wf(a) && x in a.mesh.edges
    requires a.edges[x].tri.None? && a.edges[a.edges[x].mirror].tri.None?
    ensures var b := RemoveEdge(a, x);
      forall q, z :: q in a.points ==>
        (z in b.points[q].outgoing <==> z in a.points[q].outgoing && z != x && z != a.edges[x].mirror)
  {
    var b := RemoveEdge(a, x);
    var y := a.edges[x].mirror;
    var s := Start(a, x);
    var e := a.edges[x].end;
    MirrorInvolution(a, x);
    forall q, z | q in a.points
      ensures z in b.points[q].outgoing <==> z in a.points[q].outgoing && z != x && z != y
    {
      if z in a.points[q].outgoing && z == x {
        assert q == s;
      } else if z in a.points[q].outgoing && z == y {
        assert q == e;
      }
    }
  }

  /** How RemoveEdge changes the arena, stated once for the lemmas below. */
  ghost predicate DropsPair(a: Arena, b: Arena, x: EdgeId, y: EdgeId)
  {
    && b.mesh == a.mesh.(edges := a.mesh.edges - {x, y})
    && b.edges == a.edges && b.tris == a.tris && b.vedges == a.vedges && b.id == a.id && b.next == a.next
    && b.points.Keys == a.points.Keys
    && (forall q :: q in a.points ==> b.points[q].mesh == a.points[q].mesh)
    && (forall q, z :: q in a.points ==>
          (z in b.points[q].outgoing <==> z in a.points[q].outgoing && z != x && z != y))
  }

  lemma DropPairClosed(a: Arena, b: Arena, x: EdgeId, y: EdgeId)
    requires InArena(a) && Mirrored(a) && EdgesClosed(a) && x in a.mesh.edges && y == a.edges[x].mirror
    requires DropsPair(a, b, x, y)
    ensures InArena(b) && Mirrored(b) && EdgesClosed(b)
  {
    forall z | z in b.mesh.edges
      ensures b.edges[z].mirror in b.mesh.edges && b.edges[z].end in b.mesh.points
    {
      MirrorInvolution(a, z);
    }
  }

  lemma DropPairOutgoing(a: Arena, b: Arena, x: EdgeId, y: EdgeId)
    requires InArena(a) && Mirrored(a) && EdgesClosed(a) && OutgoingExact(a)
    requires x in a.mesh.edges && y == a.edges[x].mirror && DropsPair(a, b, x, y)
    ensures InArena(b) && Mirrored(b) && EdgesClosed(b) && OutgoingExact(b)
  {
    DropPairClosed(a, b, x, y);
    forall q, z | q in b.points && z in b.points[q].outgoing
      ensures z in b.mesh.edges && Start(b, z) == q
    {
      assert z in a.points[q].outgoing;
    }
    forall z | z in b.mesh.edges
      ensures z in b.points[Start(b, z)].outgoing
    {
      assert z in a.points[Start(a, z)].outgoing;
    }
  }

  lemma DropPairTriangles(a: Arena, b: Arena, x: EdgeId, y: EdgeId)
    requires InArena(a) && Mirrored(a) && TrianglesWf(a) && SidesLinked(a)
    requires x in a.mesh.edges && y == a.edges[x].mirror && DropsPair(a, b, x, y)
    requires a.edges[x].tri.None? && a.edges[y].tri.None?
    ensures InArena(b) && Mirrored(b) && TrianglesWf(b) && SidesLinked(b)
  {
    forall t | t in b.mesh.triangles
      ensures TriangleWf(b, t)
    {
      assert TriangleWf(a, t);
    }
  }

  lemma DropPairWf(a: Arena, b: Arena, x: EdgeId, y: EdgeId)
    requires Wf(a) && x in a.mesh.edges && y == a.edges[x].mirror && DropsPair(a, b, x, y)
    requires a.edges[x].tri.None? && a.edges[y].tri.None?
    ensures Wf(b)
  {
    DropPairOutgoing(a, b, x, y);
    DropPairTriangles(a, b, x, y);
  }

  lemma DropPairShape(a: Arena, b: Arena, x: EdgeId, y: EdgeId)
    requires Wf(a) && x in a.mesh.edges && y == a.edges[x].mirror && DropsPair(a, b, x, y)
    requires a.edges[x].tri.None? && a.edges[y].tri.None?
    ensures Simple(a) ==> Simple(b)
    ensures TriSigs(b) == TriSigs(a)
    ensures Simple(a) ==> EdgeSigs(b) == EdgeSigs(a) - {Sig(a, x), Sig(a, y)}
  {
    assert forall z :: SideOf(b, z) == SideOf(a, z) && Sig(b, z) == Sig(a, z);
    forall t | t in a.mesh.triangles
      ensures TriSigOf(b, t) == TriSigOf(a, t)
    {
      assert TriangleWf(a, t);
    }
    if Simple(a) {
      forall z | z in a.mesh.edges && z != x && z != y
        ensures Sig(a, z) != Sig(a, x) && Sig(a, z) != Sig(a, y)
      {
      }
    }
  }

  /**
   * Removing a bare pair keeps the mesh well formed and simple, leaves the
   * triangles' shape alone and, in a simple mesh, drops exactly the pair's two
   * signatures from the shape.
   */
  lemma RemoveEdgeKeeps(a: Arena, x: EdgeId)
    requires Wf(a) && x in a.mesh.edges
    requires a.edges[x].tri.None? && a.edges[a.edges[x].mirror].tri.None?
    ensures var b := RemoveEdge(a, x);
      && Wf(b)
      && (Simple(a) ==> Simple(b))
      && ShapeOf(b).points == ShapeOf(a).points && ShapeOf(b).triangles == ShapeOf(a).triangles
      && (Simple(a) ==> ShapeOf(b).edges == ShapeOf(a).edges - {Sig(a, x), Sig(a, a.edges[x].mirror)})
  {
    var b := RemoveEdge(a, x);
    var y := a.edges[x].mirror;
    RemoveEdgeOutgoing(a, x);
    DropPairWf(a, b, x, y);
    DropPairShape(a, b, x, y);
  }

  // ---------------------------------------------------------------------------
  // Triangles
  // ---------------------------------------------------------------------------

  /** Every half-edge keeps its allocation, end, mirror and constrained flag. */
  ghost predicate LinksKept(a: Arena, b: Arena)
  {
    && b.edges.Keys == a.edges.Keys
    && forall z :: z in a.edges ==>
         && b.edges[z].end == a.edges[z].end && b.edges[z].mirror == a.edges[z].mirror
         && b.edges[z].constrained == a.edges[z].constrained
  }

  lemma LinksKeptSides(a: Arena, b: Arena)
    requires LinksKept(a, b)
    ensures forall z :: SideOf(b, z) == SideOf(a, z) && Sig(b, z) == Sig(a, z)
    ensures Mirrored(a) ==> Mirrored(b)
  {
    forall z
      ensures SideOf(b, z) == SideOf(a, z) && Sig(b, z) == Sig(a, z)
    {
      if z in a.edges && a.edges[z].mirror in a.edges {
        assert Start(b, z) == Start(a, z);
      }
    }
  }

  /** Keeping every link and the mesh's edge set keeps the edge signatures and simplicity. */
  lemma LinksKeptSigs(a: Arena, b: Arena)
    requires LinksKept(a, b) && b.mesh.edges == a.mesh.edges
    ensures EdgeSigs(b) == EdgeSigs(a) && Simple(b) == Simple(a)
  {
    LinksKeptSides(a, b);
  }

  /** Keeping every link, the points and the mesh's point and edge sets keeps the point invariants. */
  lemma LinksKeptPoints(a: Arena, b: Arena)
    requires InArena(a) && Mirrored(a) && EdgesClosed(a) && PointsOwned(a) && OutgoingExact(a)
    requires LinksKept(a, b) && b.points == a.points && b.id == a.id
    requires b.mesh.points == a.mesh.points && b.mesh.edges == a.mesh.edges && b.mesh.triangles <= b.tris.Keys
    ensures InArena(b) && Mirrored(b) && EdgesClosed(b) && PointsOwned(b) && OutgoingExact(b)
  {
    LinksKeptSides(a, b);
    forall z | z in b.mesh.edges
      ensures b.edges[z].mirror in b.mesh.edges && b.edges[z].end in b.mesh.points
    {
    }
    forall q, z | q in b.points && z in b.points[q].outgoing
      ensures z in b.mesh.edges && Start(b, z) == q
    {
      assert z in a.points[q].outgoing;
      assert SideOf(b, z) == SideOf(a, z);
    }
    forall z | z in b.mesh.edges
      ensures z in b.points[Start(b, z)].outgoing
    {
      assert SideOf(b, z) == SideOf(a, z);
      assert z in a.points[Start(a, z)].outgoing;
    }
  }

  /** Three half-edges of the mesh that chain head to tail and have no triangle yet. */
  predicate FreeChain(a: Arena, ab: EdgeId, bc: EdgeId, ca: EdgeId)
    requires InArena(a) && Mirrored(a)
  {
    && ab in a.mesh.edges && bc in a.mesh.edges && ca in a.mesh.edges
    && a.edges[ab].end == Start(a, bc) && a.edges[bc].end == Start(a, ca) && a.edges[ca].end == Start(a, ab)
    && a.edges[ab].tri.None? && a.edges[bc].tri.None? && a.edges[ca].tri.None?
  }

  /**
   * p2tr_mesh_new_triangle: a fresh triangle with sides AB, BC, CA joins the
   * mesh with the caller's reference, and each side records it as the
   * triangle it runs around.
   */
  function NewTriangle(a: Arena, ab: EdgeId, bc: EdgeId, ca: EdgeId): (r: (Arena, TriId))
    requires Wf(a) && FreeChain(a, ab, bc, ca)
    ensures r.1 !in a.tris && r.0.tris == a.tris[r.1 := Triangle(ab, bc, ca, 1)]
    ensures r.0.mesh == a.mesh.(triangles := a.mesh.triangles + {r.1})
    ensures r.0.edges.Keys == a.edges.Keys
    ensures forall z :: z in a.edges ==>
      r.0.edges[z] == if z in {ab, bc, ca} then a.edges[z].(tri := Some(r.1)) else a.edges[z]
    ensures r.0.points == a.points && r.0.vedges == a.vedges && r.0.id == a.id && r.0.next >= a.next
  {
    var t := a.next;
    var es := map z | z in a.edges :: if z in {ab, bc, ca} then a.edges[z].(tri := Some(t)) else a.edges[z];
    (a.(tris := a.tris[t := Triangle(ab, bc, ca, 1)], edges := es,
        mesh := a.mesh.(triangles := a.mesh.triangles + {t}), next := a.next + 1),
     t)
  }

  /** The directed sides of three half-edges, as a triangle signature. */
  function ChainSig(a: Arena, ab: EdgeId, bc: EdgeId, ca: EdgeId): TriSig
  {
    {SideOf(a, ab), SideOf(a, bc), SideOf(a, ca)}
  }

  /** How NewTriangle changes the arena, stated once for the lemmas below. */
  ghost predicate AddsTri(a: Arena, b: Arena, t: TriId, ab: EdgeId, bc: EdgeId, ca: EdgeId)
  {
    && t !in a.tris && b.tris == a.tris[t := Triangle(ab, bc, ca, 1)]
    && b.mesh == a.mesh.(triangles := a.mesh.triangles + {t})
    && b.edges.Keys == a.edges.Keys
    && (forall z :: z in a.edges ==>
          b.edges[z] == if z in {ab, bc, ca} then a.edges[z].(tri := Some(t)) else a.edges[z])
    && b.points == a.points && b.vedges == a.vedges && b.id == a.id
  }

  lemma AddTriTriangles(a: Arena, b: Arena, t: TriId, ab: EdgeId, bc: EdgeId, ca: EdgeId)
    requires InArena(a) && Mirrored(a) && TrianglesWf(a) && FreeChain(a, ab, bc, ca)
    requires AddsTri(a, b, t, ab, bc, ca)
    ensures InArena(b) && Mirrored(b) && TrianglesWf(b)
    ensures EdgesClosed(a) ==> EdgesClosed(b)
  {
    assert LinksKept(a, b);
    LinksKeptSides(a, b);
    forall u | u in b.mesh.triangles
      ensures TriangleWf(b, u)
    {
      if u == t {
        assert SideOf(b, bc) == SideOf(a, bc) && SideOf(b, ca) == SideOf(a, ca) && SideOf(b, ab) == SideOf(a, ab);
      } else {
        assert TriangleWf(a, u);
        var tu := a.tris[u];
        assert tu == b.tris[u];
        assert tu.ab !in {ab, bc, ca} && tu.bc !in {ab, bc, ca} && tu.ca !in {ab, bc, ca};
        assert SideOf(b, tu.bc) == SideOf(a, tu.bc) && SideOf(b, tu.ca) == SideOf(a, tu.ca);
        assert SideOf(b, tu.ab) == SideOf(a, tu.ab);
      }
    }
  }

  lemma AddTriSides(a: Arena, b: Arena, t: TriId, ab: EdgeId, bc: EdgeId, ca: EdgeId)
    requires InArena(a) && SidesLinked(a) && AddsTri(a, b, t, ab, bc, ca)
    ensures InArena(b) && SidesLinked(b)
  {
    forall z | z in b.mesh.edges && b.edges[z].tri.Some?
      ensures b.edges[z].tri.value in b.mesh.triangles && z in Sides(b.tris[b.edges[z].tri.value])
    {
      if z !in {ab, bc, ca} {
        assert a.edges[z].tri.value != t;
      }
    }
  }

  lemma AddTriShape(a: Arena, b: Arena, t: TriId, ab: EdgeId, bc: EdgeId, ca: EdgeId)
    requires InArena(a) && AddsTri(a, b, t, ab, bc, ca)
    ensures ShapeOf(b) == Shape(ShapeOf(a).points, ShapeOf(a).edges, ShapeOf(a).triangles + {ChainSig(a, ab, bc, ca)})
    ensures Simple(b) == Simple(a)
    ensures TriSigOf(b, t) == ChainSig(a, ab, bc, ca)
  {
    assert LinksKept(a, b);
    LinksKeptSides(a, b);
    LinksKeptSigs(a, b);
    assert TriSigOf(b, t) == ChainSig(a, ab, bc, ca);
    forall u | u in a.mesh.triangles
      ensures TriSigOf(b, u) == TriSigOf(a, u)
    {
      assert b.tris[u] == a.tris[u];
    }
  }

  /** A new triangle keeps the mesh well formed and, if it was, simple. */
  lemma NewTriangleKeeps(a: Arena, ab: EdgeId, bc: EdgeId, ca: EdgeId)
    requires Wf(a) && FreeChain(a, ab, bc, ca)
    ensures var (b, t) := NewTriangle(a, ab, bc, ca); Wf(b) && (Simple(a) ==> Simple(b))
  {
    var (b, t) := NewTriangle(a, ab, bc, ca);
    NewTriangleAddsTri(a, ab, bc, ca);
    AddTriWf(a, b, t, ab, bc, ca);
  }

  /** A new triangle adds exactly the signature of its three sides to the shape. */
  lemma NewTriangleShape(a: Arena, ab: EdgeId, bc: EdgeId, ca: EdgeId)
    requires Wf(a) && FreeChain(a, ab, bc, ca)
    ensures var (b, t) := NewTriangle(a, ab, bc, ca);
      ShapeOf(b) == Shape(ShapeOf(a).points, ShapeOf(a).edges, ShapeOf(a).triangles + {ChainSig(a, ab, bc, ca)})
  {
    var (b, t) := NewTriangle(a, ab, bc, ca);
    NewTriangleAddsTri(a, ab, bc, ca);
    AddTriShape(a, b, t, ab, bc, ca);
  }

  lemma NewTriangleAddsTri(a: Arena, ab: EdgeId, bc: EdgeId, ca: EdgeId)
    requires Wf(a) && FreeChain(a, ab, bc, ca)
    ensures var (b, t) := NewTriangle(a, ab, bc, ca); AddsTri(a, b, t, ab, bc, ca) && Allocated(b)
  {
  }

  lemma AddTriWf(a: Arena, b: Arena, t: TriId, ab: EdgeId, bc: EdgeId, ca: EdgeId)
    requires Wf(a) && FreeChain(a, ab, bc, ca) && AddsTri(a, b, t, ab, bc, ca) && Allocated(b)
    ensures Wf(b) && (Simple(a) ==> Simple(b))
  {
    assert LinksKept(a, b);
    LinksKeptPoints(a, b);
    LinksKeptSigs(a, b);
    AddTriTriangles(a, b, t, ab, bc, ca);
    AddTriSides(a, b, t, ab, bc, ca);
  }

  /**
   * p2tr_mesh_on_triangle_removed: the triangle leaves the mesh's triangle
   * set; nothing else changes.
   */
  function OnTriangleRemoved(a: Arena, t: TriId): (r: Arena)
    ensures r.mesh.triangles == a.mesh.triangles - {t}
    ensures r == a.(mesh := a.mesh.(triangles := r.mesh.triangles))
  {
    a.(mesh := a.mesh.(triangles := a.mesh.triangles - {t}))
  }

  /**
   * Removing a triangle of the mesh: its three sides forget it and it then
   * leaves the mesh through OnTriangleRemoved. The sides stay in the mesh and
   * the record stays allocated.
   */
  function RemoveTriangle(a: Arena, t: TriId): (r: Arena)
    requires Wf(a) && t in a.mesh.triangles
    ensures r.mesh == a.mesh.(triangles := a.mesh.triangles - {t})
    ensures r.edges.Keys == a.edges.Keys
    ensures forall z :: z in a.edges ==>
      r.edges[z] == if z in Sides(a.tris[t]) then a.edges[z].(tri := None) else a.edges[z]
    ensures r.points == a.points && r.tris == a.tris && r.vedges == a.vedges && r.id == a.id && r.next == a.next
  {
    var sides := Sides(a.tris[t]);
    var es := map z | z in a.edges :: if z in sides then a.edges[z].(tri := None) else a.edges[z];
    OnTriangleRemoved(a.(edges := es), t)
  }

  /** How RemoveTriangle changes the arena, stated once for the lemmas below. */
  ghost predicate DropsTri(a: Arena, b: Arena, t: TriId)
    requires t in a.tris
  {
    && b.mesh == a.mesh.(triangles := a.mesh.triangles - {t})
    && b.edges.Keys == a.edges.Keys
    && (forall z :: z in a.edges ==>
          b.edges[z] == if z in Sides(a.tris[t]) then a.edges[z].(tri := None) else a.edges[z])
    && b.points == a.points && b.tris == a.tris && b.vedges == a.vedges && b.id == a.id && b.next == a.next
  }

  lemma DropTriTriangles(a: Arena, b: Arena, t: TriId)
    requires InArena(a) && Mirrored(a) && TrianglesWf(a) && t in a.mesh.triangles && DropsTri(a, b, t)
    ensures InArena(b) && Mirrored(b) && TrianglesWf(b)
  {
    assert LinksKept(a, b);
    LinksKeptSides(a, b);
    assert TriangleWf(a, t);
    forall u | u in b.mesh.triangles
      ensures TriangleWf(b, u)
    {
      assert TriangleWf(a, u);
      var tu := a.tris[u];
      assert tu.ab !in Sides(a.tris[t]) && tu.bc !in Sides(a.tris[t]) && tu.ca !in Sides(a.tris[t]);
      assert SideOf(b, tu.bc) == SideOf(a, tu.bc) && SideOf(b, tu.ca) == SideOf(a, tu.ca);
      assert SideOf(b, tu.ab) == SideOf(a, tu.ab);
    }
  }

  lemma DropTriSides(a: Arena, b: Arena, t: TriId)
    requires InArena(a) && SidesLinked(a) && t in a.mesh.triangles && DropsTri(a, b, t)
    ensures InArena(b) && SidesLinked(b)
  {
  }

  /** In a simple well-formed mesh no two triangles have the same signature. */
  lemma TriSigInjective(a: Arena, t1: TriId, t2: TriId)
    requires InArena(a) && Mirrored(a) && TrianglesWf(a) && Simple(a)
    requires t1 in a.mesh.triangles && t2 in a.mesh.triangles
    requires TriSigOf(a, t1) == TriSigOf(a, t2)
    ensures t1 == t2
  {
    assert TriangleWf(a, t1) && TriangleWf(a, t2);
    var x := a.tris[t1].ab;
    assert SideOf(a, x) in TriSigOf(a, t2);
    var tr := a.tris[t2];
    assert SideOf(a, x) == SideOf(a, tr.ab) || SideOf(a, x) == SideOf(a, tr.bc) || SideOf(a, x) == SideOf(a, tr.ca);
  }

  lemma DropTriShape(a: Arena, b: Arena, t: TriId)
    requires t in a.tris && DropsTri(a, b, t)
    ensures Simple(b) == Simple(a)
    ensures EdgeSigs(b) == EdgeSigs(a)
    ensures TriSigs(b) == set u | u in a.mesh.triangles && u != t :: TriSigOf(a, u)
  {
    assert LinksKept(a, b);
    LinksKeptSides(a, b);
    LinksKeptSigs(a, b);
    assert forall u :: TriSigOf(b, u) == TriSigOf(a, u);
  }

  lemma DropTriSig(a: Arena, t: TriId)
    requires InArena(a) && Mirrored(a) && TrianglesWf(a) && Simple(a) && t in a.mesh.triangles
    ensures (set u | u in a.mesh.triangles && u != t :: TriSigOf(a, u)) == TriSigs(a) - {TriSigOf(a, t)}
  {
    forall u | u in a.mesh.triangles && u != t
      ensures TriSigOf(a, u) != TriSigOf(a, t)
    {
      if TriSigOf(a, u) == TriSigOf(a, t) {
        TriSigInjective(a, u, t);
      }
    }
  }

  lemma RemoveTriangleDropsTri(a: Arena, t: TriId)
    requires Wf(a) && t in a.mesh.triangles
    ensures DropsTri(a, RemoveTriangle(a, t), t) && Allocated(RemoveTriangle(a, t))
  {
  }

  lemma DropTriWf(a: Arena, b: Arena, t: TriId)
    requires Wf(a) && t in a.mesh.triangles && DropsTri(a, b, t) && Allocated(b)
    ensures Wf(b) && Simple(b) == Simple(a)
  {
    assert LinksKept(a, b);
    LinksKeptPoints(a, b);
    LinksKeptSigs(a, b);
    DropTriTriangles(a, b, t);
    DropTriSides(a, b, t);
  }

  /** Removing a triangle keeps the mesh well formed and leaves it exactly as simple as it was. */
  lemma RemoveTriangleKeeps(a: Arena, t: TriId)
    requires Wf(a) && t in a.mesh.triangles
    ensures var b := RemoveTriangle(a, t); Wf(b) && Simple(b) == Simple(a)
  {
    RemoveTriangleDropsTri(a, t);
    DropTriWf(a, RemoveTriangle(a, t), t);
  }

  /**
   * Removing a triangle leaves the points and edges of the shape alone and, in
   * a simple mesh, drops exactly that triangle's signature.
   */
  lemma RemoveTriangleShape(a: Arena, t: TriId)
    requires Wf(a) && t in a.mesh.triangles
    ensures var b := RemoveTriangle(a, t);
      && ShapeOf(b).points == ShapeOf(a).points && ShapeOf(b).edges == ShapeOf(a).edges
      && (Simple(a) ==> ShapeOf(b).triangles == ShapeOf(a).triangles - {TriSigOf(a, t)})
  {
    RemoveTriangleDropsTri(a, t);
    DropTriShape(a, RemoveTriangle(a, t), t);
    if Simple(a) {
      DropTriSig(a, t);
    }
  }

  /** A half-edge that names a triangle has its side in that triangle's signature. */
  lemma TriSideInSig(a: Arena, x: EdgeId)
    requires InArena(a) && SidesLinked(a) && x in a.mesh.edges && a.edges[x].tri.Some?
    ensures a.edges[x].tri.value in a.mesh.triangles && SideOf(a, x) in TriSigOf(a, a.edges[x].tri.value)
  {
  }

  /** In a simple mesh, a half-edge whose side is in a triangle's signature is that triangle's side. */
  lemma SigSideIsTriSide(a: Arena, x: EdgeId, t: TriId)
    requires InArena(a) && Mirrored(a) && TrianglesWf(a) && Simple(a)
    requires x in a.mesh.edges && t in a.mesh.triangles && SideOf(a, x) in TriSigOf(a, t)
    ensures a.edges[x].tri == Some(t)
  {
    assert TriangleWf(a, t);
  }

  /**
   * In a simple well-formed mesh a half-edge has no triangle exactly when its
   * directed side belongs to no triangle of the shape.
   */
  lemma TriFreeBySig(a: Arena, x: EdgeId)
    requires Wf(a) && Simple(a) && x in a.mesh.edges
    ensures a.edges[x].tri.None? <==> forall sig :: sig in TriSigs(a) ==> SideOf(a, x) !in sig
  {
    if a.edges[x].tri.Some? {
      TriSideInSig(a, x);
    } else {
      forall sig | sig in TriSigs(a)
        ensures SideOf(a, x) !in sig
      {
        var t :| t in a.mesh.triangles && TriSigOf(a, t) == sig;
        if SideOf(a, x) in sig {
          SigSideIsTriSide(a, x, t);
        }
      }
    }
  }

  // ---------------------------------------------------------------------------
  // Reading the shape
  // ---------------------------------------------------------------------------

  /** The mesh has a half-edge from `s` to `e` exactly when its shape has a signature for that side. */
  lemma HasEdgeBySig(a: Arena, s: PointId, e: PointId)
    ensures HasEdge(a, s, e) <==> (s, e, true) in EdgeSigs(a) || (s, e, false) in EdgeSigs(a)
  {
    if HasEdge(a, s, e) {
      var x :| x in a.mesh.edges && SideOf(a, x) == (s, e);
      assert Sig(a, x) in EdgeSigs(a);
    }
    if (s, e, true) in EdgeSigs(a) || (s, e, false) in EdgeSigs(a) {
      var x :| x in a.mesh.edges && (Sig(a, x) == (s, e, true) || Sig(a, x) == (s, e, false));
      assert SideOf(a, x) == (s, e);
    }
  }

  /** In a well-formed mesh a side is present exactly when its reverse is: half-edges come in mirrored pairs. */
  lemma HasEdgeMirror(a: Arena, s: PointId, e: PointId)
    requires Wf(a)
    ensures HasEdge(a, s, e) <==> HasEdge(a, e, s)
  {
    if HasEdge(a, s, e) {
      var x :| x in a.mesh.edges && SideOf(a, x) == (s, e);
      MirrorInvolution(a, x);
      assert SideOf(a, Mirror(a, x)) == (e, s);
    }
    if HasEdge(a, e, s) {
      var x :| x in a.mesh.edges && SideOf(a, x) == (e, s);
      MirrorInvolution(a, x);
      assert SideOf(a, Mirror(a, x)) == (s, e);
    }
  }

  /** Both ends of every edge signature are points of the mesh. */
  lemma SigEnds(a: Arena, sg: EdgeSig)
    requires Wf(a) && sg in EdgeSigs(a)
    ensures sg.0 in a.mesh.points && sg.1 in a.mesh.points
  {
    var x :| x in a.mesh.edges && Sig(a, x) == sg;
    assert a.edges[x].mirror in a.mesh.edges;
  }

  /** In a simple mesh a side has one signature: its constrained flag is determined, and it is no loop. */
  lemma SigUnique(a: Arena, s: PointId, e: PointId, c1: bool, c2: bool)
    requires Simple(a) && (s, e, c1) in EdgeSigs(a) && (s, e, c2) in EdgeSigs(a)
    ensures c1 == c2 && s != e
  {
    var x1 :| x1 in a.mesh.edges && Sig(a, x1) == (s, e, c1);
    var x2 :| x2 in a.mesh.edges && Sig(a, x2) == (s, e, c2);
    assert SideOf(a, x1) == SideOf(a, x2);
  }

  /** The half-edge of a mesh side, and its signature in the shape. */
  lemma SideSig(a: Arena, x: EdgeId, c: bool)
    requires Simple(a) && x in a.mesh.edges && (SideOf(a, x).0, SideOf(a, x).1, c) in EdgeSigs(a)
    ensures Sig(a, x) == (SideOf(a, x).0, SideOf(a, x).1, c)
  {
    var z :| z in a.mesh.edges && Sig(a, z) == (SideOf(a, x).0, SideOf(a, x).1, c);
    assert SideOf(a, z) == SideOf(a, x);
  }

  /** The side of mesh triangle `t` that runs along the directed side `sd` of its signature. */
  function SideEdge(a: Arena, t: TriId, sd: (PointId, PointId)): (z: EdgeId)
    requires InArena(a) && Mirrored(a) && TrianglesWf(a) && t in a.mesh.triangles && sd in TriSigOf(a, t)
    ensures z in a.mesh.edges && SideOf(a, z) == sd && a.edges[z].tri == Some(t)
  {
    assert TriangleWf(a, t);
    var tr := a.tris[t];
    if SideOf(a, tr.ab) == sd then tr.ab else if SideOf(a, tr.bc) == sd then tr.bc else tr.ca
  }

  /** Every side of a triangle in the shape is the side of a mesh half-edge. */
  lemma TriSideIsEdge(a: Arena, sig: TriSig, sd: (PointId, PointId))
    requires InArena(a) && Mirrored(a) && TrianglesWf(a) && sig in TriSigs(a) && sd in sig
    ensures HasEdge(a, sd.0, sd.1)
  {
    var t :| t in a.mesh.triangles && TriSigOf(a, t) == sig;
    var z := SideEdge(a, t, sd);
  }

  /** In a simple mesh a directed side belongs to at most one triangle of the shape. */
  lemma SideInOneTri(a: Arena, sig1: TriSig, sig2: TriSig, sd: (PointId, PointId))
    requires InArena(a) && Mirrored(a) && TrianglesWf(a) && Simple(a)
    requires sig1 in TriSigs(a) && sig2 in TriSigs(a) && sd in sig1 && sd in sig2
    ensures sig1 == sig2
  {
    var t1 :| t1 in a.mesh.triangles && TriSigOf(a, t1) == sig1;
    var t2 :| t2 in a.mesh.triangles && TriSigOf(a, t2) == sig2;
    var z1 := SideEdge(a, t1, sd);
    var z2 := SideEdge(a, t2, sd);
    assert z1 == z2;
  }

  /** A point with no edge signature starting at it has no outgoing half-edges. */
  lemma NoSigNoOutgoing(a: Arena, p: PointId)
    requires Wf(a) && p in a.points && forall sg :: sg in EdgeSigs(a) ==> sg.0 != p
    ensures a.points[p].outgoing == []
  {
    if a.points[p].outgoing != [] {
      var z := a.points[p].outgoing[0];
      assert z in a.mesh.edges && Start(a, z) == p;
      SigListed(a, z);
      assert false;
    }
  }

  lemma SigListed(a: Arena, z: EdgeId)
    requires z in a.mesh.edges
    ensures Sig(a, z) in EdgeSigs(a)
  {
  }

  // ---------------------------------------------------------------------------
  // Finding or making a half-edge
  // ---------------------------------------------------------------------------

  /**
   * p2tr_mesh_new_or_existing_edge: the mesh's half-edge from `s` to `e` if
   * there is one, otherwise a new pair made by NewEdge. Either way the caller
   * receives one reference to the returned half-edge. An existing half-edge
   * keeps its own constrained flag.
   */
  function NewOrExistingEdge(a: Arena, s: PointId, e: PointId, constrained: bool): (r: (Arena, EdgeId))
    requires Wf(a) && s in a.mesh.points && e in a.mesh.points
    ensures r.1 in r.0.edges
    ensures r.0.edges[r.1].refcount == (if r.1 in a.edges then a.edges[r.1].refcount else 0) + 1
    ensures HasEdge(a, s, e) ==> r.1 in a.mesh.edges && SideOf(a, r.1) == (s, e) && r.0 == Edges.Ref(a, r.1)
    ensures !HasEdge(a, s, e) ==>
      && r.1 !in a.edges
      && r.0.edges[r.1] == Edge(e, r.0.edges[r.1].mirror, constrained, None, false, 1)
      && AddsPair(a, r.0, r.1, r.0.edges[r.1].mirror, s, e, constrained)
  {
    EdgeToMatches(a, s, e);
    match Points.EdgeTo(a, s, e)
    case Some(x) => (Edges.Ref(a, x), x)
    case None => NewEdge(a, s, e, constrained)
  }

  /**
   * Whichever branch it takes, NewOrExistingEdge keeps the mesh well formed,
   * returns a mesh half-edge from `s` to `e`, and changes the shape only by
   * the new pair when there was no such half-edge; it keeps a simple mesh
   * simple when `s` and `e` differ.
   */
  lemma NewOrExistingEdgeKeeps(a: Arena, s: PointId, e: PointId, constrained: bool)
    requires Wf(a) && s in a.mesh.points && e in a.mesh.points
    ensures var (b, x) := NewOrExistingEdge(a, s, e, constrained);
      && Wf(b)
      && x in b.mesh.edges && SideOf(b, x) == (s, e)
      && ShapeOf(b) == (if HasEdge(a, s, e) then ShapeOf(a)
                        else Shape(ShapeOf(a).points, ShapeOf(a).edges + {(s, e, constrained), (e, s, constrained)},
                                   ShapeOf(a).triangles))
      && (Simple(a) && s != e ==> Simple(b))
  {
    var (b, x) := NewOrExistingEdge(a, s, e, constrained);
    if HasEdge(a, s, e) {
      RefKeeps(a, x);
    } else {
      NewEdgeKeeps(a, s, e, constrained);
      PairLinks(a, b, x, b.edges[x].mirror, s, e, constrained);
    }
  }

  /** Taking a reference to a mesh half-edge changes nothing the invariant or the shape reads. */
  lemma RefKeeps(a: Arena, x: EdgeId)
    requires Wf(a) && x in a.mesh.edges
    ensures var b := Edges.Ref(a, x);
      && Wf(b) && ShapeOf(b) == ShapeOf(a) && SideOf(b, x) == SideOf(a, x)
      && (Simple(a) ==> Simple(b))
  {
    var b := Edges.Ref(a, x);
    assert SameTopology(a, b);
    SameTopologyKeeps(a, b);
    SameTopologyStarts(a, b);
  }

  // ---------------------------------------------------------------------------
  // Point location
  // ---------------------------------------------------------------------------

  /** The coordinates of a mesh triangle's corners A, B, C, the starts of AB, BC, CA. */
  function Corners(a: Arena, t: TriId): (Vector2, Vector2, Vector2)
    requires Wf(a) && t in a.mesh.triangles
  {
    var tr := a.tris[t];
    (a.points[Start(a, tr.ab)].c, a.points[Start(a, tr.bc)].c, a.points[Start(a, tr.ca)].c)
  }

  /** The oracle places `pt` inside triangle `t` or on its outline. */
  predicate Contains(a: Arena, g: Geometry.Oracle, t: TriId, pt: Vector2)
    requires Wf(a) && t in a.mesh.triangles
  {
    var (ca, cb, cc) := Corners(a, t);
    g.inTriangle(pt, ca, cb, cc)
  }

  /**
   * p2tr_mesh_find_point_local: a triangle of the mesh that contains `pt`,
   * trying the initial guess first, or None when no triangle of the mesh
   * contains it (the point lies outside the triangulation domain).
   */
  method FindPointLocal(a: Arena, g: Geometry.Oracle, pt: Vector2, guess: Option<TriId>) returns (r: Option<TriId>)
    requires Wf(a)
    ensures r.Some? ==> r.value in a.mesh.triangles && Contains(a, g, r.value, pt)
    ensures r.None? <==> forall t :: t in a.mesh.triangles ==> !Contains(a, g, t, pt)
    ensures guess.Some? && guess.value in a.mesh.triangles && Contains(a, g, guess.value, pt) ==> r == guess
  {
    if guess.Some? && guess.value in a.mesh.triangles && Contains(a, g, guess.value, pt) {
      return guess;
    }
    var left := a.mesh.triangles;
    while left != {}
      invariant left <= a.mesh.triangles
      invariant forall t :: t in a.mesh.triangles && t !in left ==> !Contains(a, g, t, pt)
      decreases |left|
    {
      var t :| t in left;
      if Contains(a, g, t, pt) {
        return Some(t);
      }
      left := left - {t};
    }
    return None;
  }
}
