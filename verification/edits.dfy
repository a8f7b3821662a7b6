/**
 * The four elementary edits the CDT layer builds its operations from --
 * linking two points by a new edge pair, unlinking a pair, filling a chain
 * of three half-edges with a triangle and clearing a triangle -- each seen
 * through the shape of the mesh, with exactly the facts the next edit needs.
 */
module MeshEdits {
  import opened Topology
  import opened Edges
  import opened Meshes

  /** Some triangle of the shape runs along the directed side `sd`. */
  predicate Covered(sh: Shape, sd: (PointId, PointId))
  {
    exists sig :: sig in sh.triangles && sd in sig
  }

  /** No edge of the shape starts or ends at `p`. */
  predicate Isolated(sh: Shape, p: PointId)
  {
    forall sg :: sg in sh.edges ==> sg.0 != p && sg.1 != p
  }

  /** The shape has a signature, constrained or not, for the directed side from `s` to `e`. */
  predicate HasSide(sh: Shape, s: PointId, e: PointId)
  {
    (s, e, true) in sh.edges || (s, e, false) in sh.edges
  }

  /**
   * `b` has the virtual edges of `a`, and every point of `a` with the same
   * reference count: the edits below change only links, never references
   * to points.
   */
  predicate RefsKept(a: Arena, b: Arena)
  {
    && b.vedges == a.vedges && a.points.Keys <= b.points.Keys
    && forall q :: q in a.points ==> b.points[q].refcount == a.points[q].refcount
  }

  lemma RefsKeptTrans(a: Arena, b: Arena, c: Arena)
    requires RefsKept(a, b) && RefsKept(b, c)
    ensures RefsKept(a, c)
  {
  }

  /** Links that agree keep every allocated half-edge's side. */
  lemma SameLinksSide(a: Arena, b: Arena, z: EdgeId)
    requires SameLinks(a, b) && z in a.edges && a.edges[z].mirror in a.edges
    ensures z in b.edges && b.edges[z].mirror in b.edges && SideOf(b, z) == SideOf(a, z)
  {
  }

  lemma SameLinksTrans(a: Arena, b: Arena, c: Arena)
    requires SameLinks(a, b) && SameLinks(b, c)
    ensures SameLinks(a, c)
  {
  }

  /** The mirror of a mesh half-edge is in the mesh and runs the other way. */
  lemma MirrorSide(a: Arena, x: EdgeId)
    requires Wf(a) && x in a.mesh.edges
    ensures a.edges[x].mirror in a.mesh.edges && a.edges[a.edges[x].mirror].mirror == x
    ensures SideOf(a, a.edges[x].mirror) == (SideOf(a, x).1, SideOf(a, x).0)
  {
  }

  /** In a well-formed mesh every side of a triangle is the side of a mesh half-edge. */
  lemma CoveredHasEdge(a: Arena, sd: (PointId, PointId))
    requires Wf(a) && Covered(ShapeOf(a), sd)
    ensures HasEdge(a, sd.0, sd.1)
  {
    var sig :| sig in TriSigs(a) && sd in sig;
    TriSideIsEdge(a, sig, sd);
  }

  /** The precondition of Link, named once. */
  predicate Linkable(a: Arena, s: PointId, e: PointId)
  {
    Wf(a) && Simple(a) && s in a.mesh.points && e in a.mesh.points && s != e && !HasSide(ShapeOf(a), s, e)
  }

  /**
   * p2tr_mesh_new_edge between two distinct mesh points not yet linked: the
   * shape gains the pair's two signatures, the mesh stays well formed and
   * simple, no existing link changes, and the caller holds the one
   * reference to the new half-edge.
   */
  lemma Link(a: Arena, s: PointId, e: PointId, c: bool)
    requires Linkable(a, s, e)
    ensures var (b, x) := NewEdge(a, s, e, c);
      && Wf(b) && Simple(b)
      && ShapeOf(b) == Shape(ShapeOf(a).points, ShapeOf(a).edges + {(s, e, c), (e, s, c)}, ShapeOf(a).triangles)
      && SameLinks(a, b)
      && x !in a.edges && b.edges[x].mirror !in a.edges
      && b.mesh.edges == a.mesh.edges + {x, b.edges[x].mirror}
      && SideOf(b, x) == (s, e) && SideOf(b, b.edges[x].mirror) == (e, s)
      && b.edges[x].refcount == 1 && b.edges[x].constrained == c
      && b.mesh.triangles == a.mesh.triangles && b.tris == a.tris
      && RefsKept(a, b)
  {
    LinkKeeps(a, s, e, c);
    LinkLinks(a, s, e, c);
    LinkIds(a, s, e, c);
  }

  lemma LinkKeeps(a: Arena, s: PointId, e: PointId, c: bool)
    requires Linkable(a, s, e)
    ensures var (b, x) := NewEdge(a, s, e, c);
      && Wf(b) && Simple(b)
      && ShapeOf(b) == Shape(ShapeOf(a).points, ShapeOf(a).edges + {(s, e, c), (e, s, c)}, ShapeOf(a).triangles)
  {
    HasEdgeBySig(a, s, e);
    NewEdgeKeeps(a, s, e, c);
  }

  lemma LinkLinks(a: Arena, s: PointId, e: PointId, c: bool)
    requires Allocated(a) && s in a.points && e in a.points
    ensures SameLinks(a, NewEdge(a, s, e, c).0)
  {
    var (b, x) := NewEdge(a, s, e, c);
    assert forall z :: z in a.edges ==> b.edges[z] == a.edges[z];
  }

  lemma LinkIds(a: Arena, s: PointId, e: PointId, c: bool)
    requires Linkable(a, s, e)
    ensures var (b, x) := NewEdge(a, s, e, c);
      && x !in a.edges && b.edges[x].mirror !in a.edges
      && b.mesh.edges == a.mesh.edges + {x, b.edges[x].mirror}
      && SideOf(b, x) == (s, e) && SideOf(b, b.edges[x].mirror) == (e, s)
      && b.edges[x].refcount == 1 && b.edges[x].constrained == c
      && b.mesh.triangles == a.mesh.triangles && b.tris == a.tris
      && RefsKept(a, b)
  {
  }

  /**
   * A new pair whose creation reference is released at once, as the CDT
   * operations do with the edges they build: only the mesh holds it.
   */
  function Join(a: Arena, s: PointId, e: PointId, c: bool): (r: (Arena, EdgeId))
    requires Allocated(a) && s in a.points && e in a.points
    ensures r.1 == NewEdge(a, s, e, c).1
    ensures r.0 == Edges.Unref(NewEdge(a, s, e, c).0, r.1)
  {
    var (b, x) := NewEdge(a, s, e, c);
    (Edges.Unref(b, x), x)
  }

  /** Join has every effect of Link except that nobody holds a reference to the new half-edge. */
  lemma Joined(a: Arena, s: PointId, e: PointId, c: bool)
    requires Linkable(a, s, e)
    ensures var (b, x) := Join(a, s, e, c);
      && Wf(b) && Simple(b)
      && ShapeOf(b) == Shape(ShapeOf(a).points, ShapeOf(a).edges + {(s, e, c), (e, s, c)}, ShapeOf(a).triangles)
      && SameLinks(a, b) && RefsKept(a, b)
      && x !in a.edges && b.edges[x].mirror !in a.edges
      && b.mesh.edges == a.mesh.edges + {x, b.edges[x].mirror}
      && SideOf(b, x) == (s, e) && SideOf(b, b.edges[x].mirror) == (e, s)
      && b.edges[x].constrained == c
      && b.edges[x].refcount == 0
  {
    Link(a, s, e, c);
    var (b, x) := NewEdge(a, s, e, c);
    Release(b, x);
    SameLinksSide(b, Edges.Unref(b, x), x);
    SameLinksSide(b, Edges.Unref(b, x), b.edges[x].mirror);
    SameLinksTrans(a, b, Edges.Unref(b, x));
    RefsKeptTrans(a, b, Edges.Unref(b, x));
  }

  /** Releasing a reference to a half-edge changes nothing the mesh invariant, the shape or the links read. */
  lemma Release(a: Arena, x: EdgeId)
    requires Wf(a) && x in a.edges && a.edges[x].refcount > 0
    ensures var b := Edges.Unref(a, x);
      && Wf(b) && ShapeOf(b) == ShapeOf(a) && (Simple(a) ==> Simple(b))
      && SameLinks(a, b) && RefsKept(a, b) && b.mesh == a.mesh
  {
    var b := Edges.Unref(a, x);
    assert SameTopology(a, b);
    SameTopologyKeeps(a, b);
  }

  /** The precondition of Unlink, named once. */
  predicate Unlinkable(a: Arena, x: EdgeId)
  {
    && Wf(a) && Simple(a) && x in a.mesh.edges
    && !Covered(ShapeOf(a), SideOf(a, x)) && !Covered(ShapeOf(a), SideOf(a, a.edges[x].mirror))
  }

  /**
   * Removing a mesh half-edge pair with no triangle on either side: the
   * shape loses the pair's two signatures and the mesh no longer links its
   * end points in either direction.
   */
  lemma Unlink(a: Arena, x: EdgeId)
    requires Unlinkable(a, x)
    ensures a.edges[x].tri.None? && a.edges[a.edges[x].mirror].tri.None?
    ensures var b := RemoveEdge(a, x);
      && Wf(b) && Simple(b)
      && ShapeOf(b) == Shape(ShapeOf(a).points, ShapeOf(a).edges - {Sig(a, x), Sig(a, a.edges[x].mirror)},
                             ShapeOf(a).triangles)
      && SameLinks(a, b) && b.mesh.edges == a.mesh.edges - {x, a.edges[x].mirror}
      && !HasSide(ShapeOf(b), SideOf(a, x).0, SideOf(a, x).1) && !HasSide(ShapeOf(b), SideOf(a, x).1, SideOf(a, x).0)
      && b.edges == a.edges && b.mesh.triangles == a.mesh.triangles && b.tris == a.tris
      && RefsKept(a, b)
  {
    UnlinkFree(a, x);
    RemoveEdgeKeeps(a, x);
    UnlinkGone(a, x);
  }

  lemma UnlinkFree(a: Arena, x: EdgeId)
    requires Unlinkable(a, x)
    ensures a.edges[x].tri.None? && a.edges[a.edges[x].mirror].tri.None?
  {
    MirrorSide(a, x);
    TriFreeBySig(a, x);
    TriFreeBySig(a, a.edges[x].mirror);
  }

  lemma UnlinkGone(a: Arena, x: EdgeId)
    requires Unlinkable(a, x) && a.edges[x].tri.None? && a.edges[a.edges[x].mirror].tri.None?
    ensures var b := RemoveEdge(a, x);
      && !HasSide(ShapeOf(b), SideOf(a, x).0, SideOf(a, x).1) && !HasSide(ShapeOf(b), SideOf(a, x).1, SideOf(a, x).0)
  {
    MirrorSide(a, x);
    var b := RemoveEdge(a, x);
    HasEdgeBySig(b, SideOf(a, x).0, SideOf(a, x).1);
    HasEdgeBySig(b, SideOf(a, x).1, SideOf(a, x).0);
  }

  /** The precondition of Fill, named once. */
  predicate Fillable(a: Arena, ab: EdgeId, bc: EdgeId, ca: EdgeId)
  {
    && Wf(a) && Simple(a) && ab in a.mesh.edges && bc in a.mesh.edges && ca in a.mesh.edges
    && SideOf(a, ab).1 == SideOf(a, bc).0 && SideOf(a, bc).1 == SideOf(a, ca).0
    && SideOf(a, ca).1 == SideOf(a, ab).0
    && !Covered(ShapeOf(a), SideOf(a, ab)) && !Covered(ShapeOf(a), SideOf(a, bc))
    && !Covered(ShapeOf(a), SideOf(a, ca))
  }

  /**
   * p2tr_mesh_new_triangle over three mesh half-edges that chain head to
   * tail and whose sides no triangle covers yet: the shape gains the
   * triangle of their sides, and the caller holds the one reference to it.
   */
  lemma Fill(a: Arena, ab: EdgeId, bc: EdgeId, ca: EdgeId)
    requires Fillable(a, ab, bc, ca)
    ensures FreeChain(a, ab, bc, ca)
    ensures var (b, t) := NewTriangle(a, ab, bc, ca);
      && Wf(b) && Simple(b)
      && ShapeOf(b) == Shape(ShapeOf(a).points, ShapeOf(a).edges,
                             ShapeOf(a).triangles + {{SideOf(a, ab), SideOf(a, bc), SideOf(a, ca)}})
      && SameLinks(a, b) && b.mesh.edges == a.mesh.edges
      && t !in a.tris && t in b.mesh.triangles && b.tris[t].refcount == 1
      && RefsKept(a, b)
  {
    FillFree(a, ab, bc, ca);
    NewTriangleKeeps(a, ab, bc, ca);
    NewTriangleShape(a, ab, bc, ca);
    FillLinks(a, ab, bc, ca);
  }

  lemma FillFree(a: Arena, ab: EdgeId, bc: EdgeId, ca: EdgeId)
    requires Fillable(a, ab, bc, ca)
    ensures FreeChain(a, ab, bc, ca)
  {
    TriFreeBySig(a, ab);
    TriFreeBySig(a, bc);
    TriFreeBySig(a, ca);
  }

  lemma FillLinks(a: Arena, ab: EdgeId, bc: EdgeId, ca: EdgeId)
    requires Wf(a) && FreeChain(a, ab, bc, ca)
    ensures var (b, t) := NewTriangle(a, ab, bc, ca);
      && SameLinks(a, b) && b.mesh.edges == a.mesh.edges
      && t !in a.tris && t in b.mesh.triangles && b.tris[t].refcount == 1
  {
  }

  /**
   * Removing a mesh triangle: the shape loses its signature, and in the
   * simple mesh that leaves its three sides uncovered.
   */
  lemma Clear(a: Arena, t: TriId)
    requires Wf(a) && Simple(a) && t in a.mesh.triangles
    ensures var b := RemoveTriangle(a, t);
      && Wf(b) && Simple(b)
      && ShapeOf(b) == Shape(ShapeOf(a).points, ShapeOf(a).edges, ShapeOf(a).triangles - {TriSigOf(a, t)})
      && SameLinks(a, b) && b.mesh.edges == a.mesh.edges
      && (forall sd :: sd in TriSigOf(a, t) ==> !Covered(ShapeOf(b), sd))
      && RefsKept(a, b)
  {
    RemoveTriangleKeeps(a, t);
    RemoveTriangleShape(a, t);
    ClearLinks(a, t);
    ClearUncovers(a, t);
  }

  lemma ClearLinks(a: Arena, t: TriId)
    requires Wf(a) && t in a.mesh.triangles
    ensures var b := RemoveTriangle(a, t); SameLinks(a, b) && b.mesh.edges == a.mesh.edges
  {
  }

  lemma ClearUncovers(a: Arena, t: TriId)
    requires Wf(a) && Simple(a) && t in a.mesh.triangles
    ensures forall sd :: sd in TriSigOf(a, t) ==> !Covered(ShapeOf(RemoveTriangle(a, t)), sd)
  {
    RemoveTriangleShape(a, t);
    var b := RemoveTriangle(a, t);
    forall sd | sd in TriSigOf(a, t)
      ensures !Covered(ShapeOf(b), sd)
    {
      if Covered(ShapeOf(b), sd) {
        var sig :| sig in ShapeOf(b).triangles && sd in sig;
        SideInOneTri(a, sig, TriSigOf(a, t), sd);
        assert false;
      }
    }
  }
}
