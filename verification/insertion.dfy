/**
 * Point insertion into the CDT, the entry point of refine/cdt.h that
 * locates a point, adds it to the mesh, and splits whatever it lies in.
 */
module Insertion {
  import opened Wrappers
  import opened Topology
  import opened Meshes
  import opened Edges
  import opened MeshEdits
  import opened Cdts
  import VEdges

  /**
   * The two triangles on either side of the half-edge `x` share their apex,
   * so the edge cannot be split. This never happens in a planar
   * triangulation, but nothing in the topology alone rules it out.
   */
  predicate Pinched(a: Arena, x: EdgeId)
    requires x in a.edges && a.edges[x].mirror in a.edges
  {
    !ApartWings(WingOf(a, x), WingOf(a, a.edges[x].mirror))
  }

  /** The first side of triangle `t`, in the order AB, BC, CA, on which the oracle places `pt`. */
  function SideOn(g: Geometry.Oracle, a: Arena, t: TriId, pt: Vector2): (r: Option<EdgeId>)
    requires t in a.tris && a.tris[t].ab in a.edges && a.tris[t].bc in a.edges && a.tris[t].ca in a.edges
    ensures r.Some? ==> (r.value == a.tris[t].ab || r.value == a.tris[t].bc || r.value == a.tris[t].ca)
    ensures r.Some? ==> OnSide(g, a, r.value, pt)
    ensures r.None? <==> !OnSide(g, a, a.tris[t].ab, pt) && !OnSide(g, a, a.tris[t].bc, pt) && !OnSide(g, a, a.tris[t].ca, pt)
  {
    var tr := a.tris[t];
    if OnSide(g, a, tr.ab, pt) then Some(tr.ab)
    else if OnSide(g, a, tr.bc, pt) then Some(tr.bc)
    else if OnSide(g, a, tr.ca, pt) then Some(tr.ca)
    else None
  }

  /**
   * A new point at `pt`: the mesh stays sound, the point is linked to
   * nothing, and the wings, sides and containment tests of what was there
   * read the same.
   */
  lemma NewPointSound(g: Geometry.Oracle, a: Arena, pt: Vector2)
    requires Sound(a)
    ensures var (b, p) := NewPoint(a, pt);
      && Sound(b) && p in b.mesh.points && p in b.points && b.points[p].c == pt
      && Isolated(ShapeOf(b), p)
      && ShapeOf(b) == Shape(ShapeOf(a).points + {p}, ShapeOf(a).edges, ShapeOf(a).triangles)
      && ShapeValid(ShapeOf(b)) == ShapeValid(ShapeOf(a))
      && b.edges == a.edges && b.tris == a.tris
      && (forall q :: q in a.points ==> q in b.points && b.points[q] == a.points[q])
  {
    var (b, p) := NewPoint(a, pt);
    NewPointKeeps(a, pt);
    VEdges.FrameCover(a, b);
    ValidOfLinks(ShapeOf(a), ShapeOf(a).points + {p});
    forall sg | sg in ShapeOf(a).edges
      ensures sg.0 != p && sg.1 != p
    {
      var x :| x in a.mesh.edges && Sig(a, x) == sg;
      SideEnds(a, x);
    }
  }

  /** Validity reads only the signatures and the triangles, not the point set. */
  lemma ValidOfLinks(sh: Shape, pts: set<PointId>)
    ensures ShapeValid(Shape(pts, sh.edges, sh.triangles)) == ShapeValid(sh)
  {
    var r := Shape(pts, sh.edges, sh.triangles);
    assert forall sd :: Covered(r, sd) == Covered(sh, sd);
  }

  /**
   * What insert_point promises once it has placed the new point `p`: the
   * mesh is sound, `p` is new and is now one of its points, no other point
   * came or went, a valid mesh stays valid, `p` and no other point became
   * attached to the triangulation, and some triangle was split.
   */
  predicate Placed(a: Arena, b: Arena, p: PointId)
  {
    && Sound(b) && p !in a.points && p in b.mesh.points
    && ShapeOf(b).points == ShapeOf(a).points + {p}
    && (ShapeValid(ShapeOf(a)) ==> ShapeValid(ShapeOf(b)))
    && Attached(ShapeOf(b)) == Attached(ShapeOf(a)) + {p}
    && |ShapeOf(b).triangles| > |ShapeOf(a).triangles|
  }

  /** Arenas with the same half-edges and triangles read the same wings. */
  lemma SameWings(a: Arena, b: Arena, x: EdgeId)
    requires b.edges == a.edges && b.tris == a.tris && x in a.edges
    ensures WingOf(b, x) == WingOf(a, x)
  {
  }

  /** Arenas agreeing on the half-edges, the triangles and the old points agree on containment in a mesh triangle. */
  lemma SameContains(a: Arena, b: Arena, g: Geometry.Oracle, t: TriId, pt: Vector2)
    requires Wf(a) && Simple(a) && Wf(b) && t in a.mesh.triangles && t in b.mesh.triangles
    requires b.edges == a.edges && b.tris == a.tris
    requires forall q :: q in a.points ==> q in b.points && b.points[q] == a.points[q]
    ensures Contains(b, g, t, pt) == Contains(a, g, t, pt)
  {
    var tr := a.tris[t];
    TriangleSides(a, t);
    SideEnds(a, tr.ab);
    SideEnds(a, tr.bc);
    SideEnds(a, tr.ca);
    var qa, qb, qc := Start(a, tr.ab), Start(a, tr.bc), Start(a, tr.ca);
    assert qa in a.points && qb in a.points && qc in a.points;
    assert b.points[qa] == a.points[qa] && b.points[qb] == a.points[qb] && b.points[qc] == a.points[qc];
    assert Corners(b, t) == (b.points[qa].c, b.points[qb].c, b.points[qc].c);
  }

  /** Releasing the caller's references to the parts split_edge returned; the mesh is untouched. */
  method ReleaseParts(a: Arena, parts: Option<seq<EdgeId>>) returns (b: Arena)
    requires Sound(a)
    requires parts.Some? ==> |parts.value| == 2 && parts.value[0] != parts.value[1]
    requires parts.Some? ==> parts.value[0] in a.edges && a.edges[parts.value[0]].refcount > 0
    requires parts.Some? ==> parts.value[1] in a.edges && a.edges[parts.value[1]].refcount > 0
    ensures Sound(b) && ShapeOf(b) == ShapeOf(a)
  {
    b := a;
    if parts.Some? {
      var x, y := parts.value[0], parts.value[1];
      Release(a, x);
      var a1 := Edges.Unref(a, x);
      VEdges.FrameCover(a, a1);
      Release(a1, y);
      b := Edges.Unref(a1, y);
      VEdges.FrameCover(a1, b);
    }
  }

  /**
   * The new point at `pt` placed in the mesh: split into the side `side`
   * of `t` when there is one, which turns each triangle on that side into
   * two, otherwise into the triangle `t`, which contains it and becomes
   * three.
   */
  method PlacePoint(g: Geometry.Oracle, a: Arena, t: TriId, pt: Vector2, side: Option<EdgeId>, fuel: nat)
    returns (b: Arena, p: PointId)
    requires Sound(a) && t in a.mesh.triangles && Contains(a, g, t, pt)
    requires side.Some? ==> side.value in a.mesh.edges && side.value in a.edges && a.edges[side.value].mirror in a.edges
    requires side.Some? ==> a.edges[side.value].tri == Some(t)
    requires side.Some? ==> OnSide(g, a, side.value, pt) && !Pinched(a, side.value)
    ensures Placed(a, b, p)
    ensures side.None? ==> |ShapeOf(b).triangles| == |ShapeOf(a).triangles| + 2
    ensures side.Some? ==> |ShapeOf(b).triangles| == |ShapeOf(a).triangles| + Wings(a, side.value)
  {
    var a1;
    a1, p := NewPoint(a, pt).0, NewPoint(a, pt).1;
    NewPointSound(g, a, pt);
    if side.Some? {
      var x := side.value;
      SameWings(a, a1, x);
      SameWings(a, a1, a.edges[x].mirror);
      WingShape(a, x);
      IsolatedApart(a1, p, x);
      var a2, parts := SplitEdge(g, a1, x, p, fuel);
      b := ReleaseParts(a2, parts);
    } else {
      SameContains(a, a1, g, t, pt);
      b := InsertPointIntoTriangle(g, a1, p, t, fuel);
    }
  }

  /**
   * The rest of insert_point once triangle `t` is known to contain `pt`:
   * the side of `t` the point lies on is split, turning each triangle on
   * that side into two, or else `t` itself, turning it into three. Only a
   * pinched side stops it.
   */
  method PlaceInTriangle(g: Geometry.Oracle, a: Arena, t: TriId, pt: Vector2, fuel: nat)
    returns (r: Option<(Arena, PointId)>)
    requires Sound(a) && t in a.mesh.triangles && Contains(a, g, t, pt)
    ensures r.None? <==> Refused(g, a, t, pt)
    ensures r.Some? ==> Placed(a, r.value.0, r.value.1)
    ensures r.Some? ==> InSplit(g, a, t, pt, r.value.0)
  {
    TriangleSides(a, t);
    MirrorSide(a, a.tris[t].ab);
    MirrorSide(a, a.tris[t].bc);
    MirrorSide(a, a.tris[t].ca);
    assert TriangleWf(a, t);
    var side := SideOn(g, a, t, pt);
    if side.Some? && Pinched(a, side.value) {
      return None;
    }
    var b, p := PlacePoint(g, a, t, pt, side, fuel);
    r := Some((b, p));
  }

  /** The first side of triangle `t` on which the oracle places `pt` is pinched, so it cannot be split. */
  predicate Refused(g: Geometry.Oracle, a: Arena, t: TriId, pt: Vector2)
    requires Wf(a) && Simple(a) && t in a.mesh.triangles
  {
    TriangleSides(a, t);
    MirrorSide(a, a.tris[t].ab);
    MirrorSide(a, a.tris[t].bc);
    MirrorSide(a, a.tris[t].ca);
    var side := SideOn(g, a, t, pt);
    side.Some? && Pinched(a, side.value)
  }

  /**
   * The triangles of `b` against those of `a`, once `pt` was placed in
   * triangle `t`: two more when `pt` lies on no side of `t`, and one more
   * for each triangle beside the side it lies on otherwise.
   */
  predicate InSplit(g: Geometry.Oracle, a: Arena, t: TriId, pt: Vector2, b: Arena)
    requires Wf(a) && Simple(a) && t in a.mesh.triangles
  {
    TriangleSides(a, t);
    MirrorSide(a, a.tris[t].ab);
    MirrorSide(a, a.tris[t].bc);
    MirrorSide(a, a.tris[t].ca);
    var side := SideOn(g, a, t, pt);
    if side.None? then |ShapeOf(b).triangles| == |ShapeOf(a).triangles| + 2
    else |ShapeOf(b).triangles| == |ShapeOf(a).triangles| + Wings(a, side.value)
  }

  /**
   * p2tr_cdt_insert_point: the triangle holding `pt` is found, from the
   * guess when one is given; a point outside every triangle of the mesh is
   * refused. Otherwise a new point at `pt` joins the mesh and is split
   * into the first side of that triangle it lies on, or else into the
   * triangle itself. The outline stays, the new point is in the mesh and
   * attached to the triangulation afterwards, the triangles it was placed
   * in are split, and a valid mesh stays valid. A refusal means the point
   * lies outside the mesh, or the first side of a triangle holding it that
   * it lies on is pinched.
   */
  method InsertPoint(g: Geometry.Oracle, c: Cdt, pt: Vector2, guess: Option<TriId>, fuel: nat)
    returns (r: Option<(Cdt, PointId)>)
    requires Sound(c.mesh)
    ensures (forall t :: t in c.mesh.mesh.triangles ==> !Contains(c.mesh, g, t, pt)) ==> r.None?
    ensures r.None? ==>
      || (forall t :: t in c.mesh.mesh.triangles ==> !Contains(c.mesh, g, t, pt))
      || (exists t :: t in c.mesh.mesh.triangles && Contains(c.mesh, g, t, pt) && Refused(g, c.mesh, t, pt))
    ensures r.Some? ==> r.value.0.outline == c.outline && Placed(c.mesh, r.value.0.mesh, r.value.1)
    ensures r.Some? ==> exists t :: t in c.mesh.mesh.triangles && Contains(c.mesh, g, t, pt)
                                    && InSplit(g, c.mesh, t, pt, r.value.0.mesh)
  {
    var ot := FindPointLocal(c.mesh, g, pt, guess);
    if ot.None? {
      return None;
    }
    var placed := PlaceInTriangle(g, c.mesh, ot.value, pt, fuel);
    if placed.None? {
      return None;
    }
    r := Some((Cdt(placed.value.0, c.outline), placed.value.1));
  }
}
