/**
 * Virtual edges (poly2tri-c/refine/vedge.c): reference-counted (start, end)
 * pairs of points that name an edge which may or may not exist in the mesh,
 * and can be resolved to the real half-edge when it does.
 *
 * A virtual edge holds one reference to each of its points for as long as
 * it lives; freeing it releases both.
 */
module VEdges {
  import opened Wrappers
  import opened Topology
  import Points
  import Edges
  import Meshes

  /** How many of a virtual edge's two point references fall on `q`: a loop holds two on its point. */
  function Holds(q: PointId, s: PointId, e: PointId): nat
  {
    (if q == s then 1 else 0) + (if q == e then 1 else 0)
  }

  /**
   * The points of `v` are allocated and each holds at least the references
   * `v` took on it, so freeing `v` can release them.
   */
  predicate PointsHeld(a: Arena, v: VEdgeId)
    requires v in a.vedges
  {
    var ve := a.vedges[v];
    && ve.start in a.points && ve.end in a.points
    && a.points[ve.start].refcount >= Holds(ve.start, ve.start, ve.end)
    && a.points[ve.end].refcount >= Holds(ve.end, ve.start, ve.end)
  }

  /** `b` has the points of `a`, each differing at most in its reference count. */
  predicate CountsOnly(a: Arena, b: Arena)
  {
    && b.points.Keys == a.points.Keys
    && forall q :: q in a.points ==> b.points[q] == a.points[q].(refcount := b.points[q].refcount)
  }

  lemma CountsOnlyTrans(a: Arena, b: Arena, c: Arena)
    requires CountsOnly(a, b) && CountsOnly(b, c)
    ensures CountsOnly(a, c)
  {
  }

  /**
   * p2tr_vedge_new: a fresh virtual edge from `s` to `e` with one reference,
   * owned by the caller; each of its points gains one reference per end it
   * occupies. Nothing else changes but the allocator.
   */
  function New(a: Arena, s: PointId, e: PointId): (r: (Arena, VEdgeId))
    requires Allocated(a) && s in a.points && e in a.points
    ensures r.1 !in a.vedges && r.0.vedges == a.vedges[r.1 := VEdge(s, e, 1)]
    ensures r.0.points.Keys == a.points.Keys
    ensures forall q :: q in a.points ==>
      r.0.points[q] == a.points[q].(refcount := a.points[q].refcount + Holds(q, s, e))
    ensures r.0.edges == a.edges && r.0.tris == a.tris && r.0.mesh == a.mesh && r.0.id == a.id
    ensures Allocated(r.0) && r.0.next > a.next
    ensures PointsHeld(r.0, r.1)
  {
    var v := a.next;
    var b := Points.Ref(Points.Ref(a, s), e);
    (b.(vedges := b.vedges[v := VEdge(s, e, 1)], next := a.next + 1), v)
  }

  /**
   * p2tr_vedge_new2: the virtual edge of an existing half-edge, from the end
   * of its mirror to its own end.
   */
  function New2(a: Arena, x: EdgeId): (r: (Arena, VEdgeId))
    requires Allocated(a) && x in a.edges && a.edges[x].mirror in a.edges
    requires a.edges[a.edges[x].mirror].end in a.points && a.edges[x].end in a.points
    ensures r.1 !in a.vedges
    ensures r.0.vedges == a.vedges[r.1 := VEdge(a.edges[a.edges[x].mirror].end, a.edges[x].end, 1)]
    ensures r.0.edges == a.edges && r.0.tris == a.tris && r.0.mesh == a.mesh && r.0.id == a.id
    ensures r.0.points.Keys == a.points.Keys
    ensures Allocated(r.0) && r.0.next > a.next
    ensures PointsHeld(r.0, r.1)
  {
    New(a, Edges.Start(a, x), a.edges[x].end)
  }

  /** p2tr_vedge_ref: one more reference to `v`; nothing else changes. */
  function Ref(a: Arena, v: VEdgeId): (r: Arena)
    requires v in a.vedges
    ensures r.vedges.Keys == a.vedges.Keys
    ensures r.vedges[v] == a.vedges[v].(refcount := a.vedges[v].refcount + 1)
    ensures forall w :: w in a.vedges && w != v ==> r.vedges[w] == a.vedges[w]
    ensures r == a.(vedges := r.vedges)
  {
    a.(vedges := a.vedges[v := a.vedges[v].(refcount := a.vedges[v].refcount + 1)])
  }

  /**
   * p2tr_vedge_free: `v` is deallocated and the references it held on its
   * two points are released.
   */
  function Free(a: Arena, v: VEdgeId): (r: Arena)
    requires v in a.vedges && PointsHeld(a, v)
    ensures r.vedges == a.vedges - {v}
    ensures r.points.Keys == a.points.Keys
    ensures forall q :: q in a.points ==>
      r.points[q] == a.points[q].(refcount := a.points[q].refcount - Holds(q, a.vedges[v].start, a.vedges[v].end))
    ensures r == a.(points := r.points, vedges := r.vedges)
  {
    var ve := a.vedges[v];
    var b := Points.Unref(Points.Unref(a, ve.start), ve.end);
    b.(vedges := b.vedges - {v})
  }

  /**
   * p2tr_vedge_unref: release one reference to `v`, which must hold one.
   * Releasing the last reference frees it; otherwise only its count drops.
   */
  function Unref(a: Arena, v: VEdgeId): (r: Arena)
    requires v in a.vedges && a.vedges[v].refcount > 0
    requires a.vedges[v].refcount == 1 ==> PointsHeld(a, v)
    ensures a.vedges[v].refcount > 1 ==>
      r == a.(vedges := a.vedges[v := a.vedges[v].(refcount := a.vedges[v].refcount - 1)])
    ensures a.vedges[v].refcount == 1 ==> v !in r.vedges && r == Free(a, v)
    ensures forall w :: w in a.vedges && w != v ==> w in r.vedges && r.vedges[w] == a.vedges[w]
    ensures r.edges == a.edges && r.tris == a.tris && r.mesh == a.mesh && r.id == a.id && r.next == a.next
    ensures r.points.Keys == a.points.Keys && r.vedges.Keys <= a.vedges.Keys && CountsOnly(a, r)
  {
    if a.vedges[v].refcount == 1 then Free(a, v)
    else a.(vedges := a.vedges[v := a.vedges[v].(refcount := a.vedges[v].refcount - 1)])
  }

  /**
   * p2tr_vedge_is_real: the outgoing half-edge of the start point that ends
   * at the end point, or None; nothing changes.
   */
  function IsReal(a: Arena, v: VEdgeId): (r: Option<EdgeId>)
    requires v in a.vedges && a.vedges[v].start in a.points
    requires Points.OutgoingAllocated(a, a.vedges[v].start)
    ensures r.Some? ==> r.value in a.points[a.vedges[v].start].outgoing && a.edges[r.value].end == a.vedges[v].end
    ensures r.None? <==> forall x :: x in a.points[a.vedges[v].start].outgoing ==> a.edges[x].end != a.vedges[v].end
  {
    Points.EdgeTo(a, a.vedges[v].start, a.vedges[v].end)
  }

  /**
   * p2tr_vedge_get: the real half-edge of a virtual edge that has one, with
   * one more reference, which the caller owns.
   */
  function Get(a: Arena, v: VEdgeId): (r: (Arena, EdgeId))
    requires v in a.vedges && a.vedges[v].start in a.points
    requires Points.OutgoingAllocated(a, a.vedges[v].start)
    requires IsReal(a, v).Some?
    ensures r.1 in a.points[a.vedges[v].start].outgoing && a.edges[r.1].end == a.vedges[v].end
    ensures r.0.edges.Keys == a.edges.Keys
    ensures r.0.edges[r.1] == a.edges[r.1].(refcount := a.edges[r.1].refcount + 1)
    ensures forall x :: x in a.edges && x != r.1 ==> r.0.edges[x] == a.edges[x]
    ensures r.0 == a.(edges := r.0.edges)
  {
    var x := IsReal(a, v).value;
    (Edges.Ref(a, x), x)
  }

  /** p2tr_vedge_get_mesh: the mesh of the end point, if it has joined one. */
  function GetMesh(a: Arena, v: VEdgeId): (r: Option<MeshId>)
    requires v in a.vedges && a.vedges[v].end in a.points
    ensures Meshes.PointsOwned(a) ==> (r == Some(a.id) <==> a.vedges[v].end in a.mesh.points)
    ensures Meshes.PointsOwned(a) ==> (r.None? <==> a.vedges[v].end !in a.mesh.points)
  {
    a.points[a.vedges[v].end].mesh
  }

  /**
   * p2tr_vedge_try_get_and_unref: resolve `v` to its real half-edge, taking
   * a reference to that edge for the caller when there is one, and release
   * the caller's reference to `v` in every case. The flag is true exactly
   * when a real half-edge was found.
   */
  function TryGetAndUnref(a: Arena, v: VEdgeId): (r: (Arena, bool, Option<EdgeId>))
    requires v in a.vedges && a.vedges[v].refcount > 0 && PointsHeld(a, v)
    requires Points.OutgoingAllocated(a, a.vedges[v].start)
    ensures r.1 <==> r.2.Some?
    ensures r.2.None? <==> forall x :: x in a.points[a.vedges[v].start].outgoing ==> a.edges[x].end != a.vedges[v].end
    ensures r.2.Some? ==>
      && r.2.value in a.points[a.vedges[v].start].outgoing && a.edges[r.2.value].end == a.vedges[v].end
      && r.0.edges == a.edges[r.2.value := a.edges[r.2.value].(refcount := a.edges[r.2.value].refcount + 1)]
    ensures r.2.None? ==> r.0.edges == a.edges
    ensures a.vedges[v].refcount > 1 ==>
      r.0.vedges == a.vedges[v := a.vedges[v].(refcount := a.vedges[v].refcount - 1)] && r.0.points == a.points
    ensures a.vedges[v].refcount == 1 ==> r.0.vedges == a.vedges - {v}
    ensures r.0.tris == a.tris && r.0.mesh == a.mesh && r.0.next == a.next && r.0.id == a.id
    ensures r.0.edges.Keys == a.edges.Keys && r.0.vedges.Keys <= a.vedges.Keys && CountsOnly(a, r.0)
  {
    var found := IsReal(a, v);
    var b := if found.Some? then Edges.Ref(a, found.value) else a;
    (Unref(b, v), found.Some?, found)
  }

  // ---------------------------------------------------------------------------
  // Properties
  // ---------------------------------------------------------------------------

  /**
   * In a well-formed mesh, a virtual edge between member points is real
   * exactly when the mesh has a half-edge from its start to its end, and
   * what it resolves to is such a half-edge.
   */
  lemma IsRealMatches(a: Arena, v: VEdgeId)
    requires Meshes.Wf(a) && v in a.vedges && a.vedges[v].start in a.points
    ensures Points.OutgoingAllocated(a, a.vedges[v].start)
    ensures IsReal(a, v).Some? <==> Meshes.HasEdge(a, a.vedges[v].start, a.vedges[v].end)
    ensures IsReal(a, v).Some? ==>
      IsReal(a, v).value in a.mesh.edges
      && Meshes.SideOf(a, IsReal(a, v).value) == (a.vedges[v].start, a.vedges[v].end)
  {
    Meshes.EdgeToMatches(a, a.vedges[v].start, a.vedges[v].end);
  }

  /**
   * The virtual edge of a mesh half-edge resolves back to that half-edge in
   * a simple mesh: new2 and is_real are inverse.
   */
  lemma New2IsReal(a: Arena, x: EdgeId)
    requires Meshes.Wf(a) && Meshes.Simple(a) && x in a.mesh.edges
    ensures Edges.Start(a, x) in a.points && a.edges[x].end in a.points
    ensures var (b, v) := New2(a, x);
      && v in b.vedges && b.vedges[v].start in b.points && Points.OutgoingAllocated(b, b.vedges[v].start)
      && IsReal(b, v) == Some(x)
  {
    var (b, v) := New2(a, x);
    Meshes.EdgeToUnique(a, x);
    assert b.points[Edges.Start(a, x)].outgoing == a.points[Edges.Start(a, x)].outgoing;
  }

  /** `n` further references to `v`. */
  function RefN(a: Arena, v: VEdgeId, n: nat): (r: Arena)
    requires v in a.vedges
    ensures v in r.vedges && r.vedges[v].refcount == a.vedges[v].refcount + n
    ensures r == a.(vedges := a.vedges[v := a.vedges[v].(refcount := a.vedges[v].refcount + n)])
    decreases n
  {
    if n == 0 then a else Ref(RefN(a, v, n - 1), v)
  }

  /** `n` releases of `v`, which holds at least `n` references. */
  function UnrefN(a: Arena, v: VEdgeId, n: nat): Arena
    requires n == 0 || (v in a.vedges && a.vedges[v].refcount >= n && PointsHeld(a, v))
    decreases n
  {
    if n == 0 then a else UnrefN(Unref(a, v), v, n - 1)
  }

  /** `v` as it would be with exactly one reference left. */
  function Single(c: Arena, v: VEdgeId): Arena
    requires v in c.vedges
  {
    c.(vedges := c.vedges[v := c.vedges[v].(refcount := 1)])
  }

  /**
   * A virtual edge holding `n + 1` references is freed by exactly `n + 1`
   * releases, which end where freeing it with one reference left would.
   */
  lemma {:induction false} Drain(c: Arena, v: VEdgeId, n: nat)
    requires v in c.vedges && c.vedges[v].refcount == n + 1 && PointsHeld(c, v)
    ensures UnrefN(c, v, n + 1) == Free(Single(c, v), v)
    decreases n
  {
    if n == 0 {
      assert Single(c, v) == c;
      assert UnrefN(c, v, 1) == Unref(c, v);
    } else {
      var d := Unref(c, v);
      assert Single(d, v) == Single(c, v);
      Drain(d, v, n - 1);
    }
  }

  /**
   * A virtual edge with one reference, given `k` more, is freed by exactly
   * `k + 1` releases, whatever `k` is.
   */
  lemma ReleaseAll(a: Arena, v: VEdgeId, k: nat)
    requires v in a.vedges && a.vedges[v].refcount == 1 && PointsHeld(a, v)
    ensures PointsHeld(RefN(a, v, k), v)
    ensures UnrefN(RefN(a, v, k), v, k + 1) == Free(a, v)
  {
    var c := RefN(a, v, k);
    assert c.points == a.points && c.vedges[v].start == a.vedges[v].start && c.vedges[v].end == a.vedges[v].end;
    Drain(c, v, k);
    assert Single(c, v) == a;
  }

  /**
   * Reference balance: creating a virtual edge, taking `k` more references
   * to it and then releasing all `k + 1` leaves every point's reference
   * count, and everything else but the allocator, as before.
   */
  lemma NewThenReleaseAll(a: Arena, s: PointId, e: PointId, k: nat)
    requires Allocated(a) && s in a.points && e in a.points
    ensures var (b, v) := New(a, s, e);
      && PointsHeld(RefN(b, v, k), v)
      && UnrefN(RefN(b, v, k), v, k + 1) == a.(next := b.next)
  {
    var (b, v) := New(a, s, e);
    ReleaseAll(b, v, k);
    FreeNew(a, s, e);
  }

  /** Freeing a virtual edge just created gives back the arena but for the allocator. */
  lemma FreeNew(a: Arena, s: PointId, e: PointId)
    requires Allocated(a) && s in a.points && e in a.points
    ensures var (b, v) := New(a, s, e);
      && PointsHeld(b, v)
      && Free(b, v) == a.(next := b.next)
  {
    var (b, v) := New(a, s, e);
    FreeNewPoints(a, b, v, s, e);
    RemoveAdded(a.vedges, v, b.vedges[v]);
  }

  lemma RemoveAdded<K, V>(m: map<K, V>, k: K, x: V)
    requires k !in m
    ensures m[k := x] - {k} == m
  {
  }

  lemma FreeNewPoints(a: Arena, b: Arena, v: VEdgeId, s: PointId, e: PointId)
    requires v in b.vedges && b.vedges[v].start == s && b.vedges[v].end == e
    requires s in a.points && e in a.points && b.points.Keys == a.points.Keys
    requires forall q :: q in a.points ==> b.points[q] == a.points[q].(refcount := a.points[q].refcount + Holds(q, s, e))
    ensures PointsHeld(b, v) && Free(b, v).points == a.points
  {
    var f := Free(b, v);
    forall q | q in a.points
      ensures f.points[q] == a.points[q]
    {
      assert b.points[q] == a.points[q].(refcount := a.points[q].refcount + Holds(q, s, e));
    }
  }

  // ---------------------------------------------------------------------------
  // Reference accounting
  // ---------------------------------------------------------------------------

  /** The virtual edges that start at `q`. */
  function StartingAt(a: Arena, q: PointId): set<VEdgeId>
  {
    set v | v in a.vedges && a.vedges[v].start == q
  }

  /** The virtual edges that end at `q`. */
  function EndingAt(a: Arena, q: PointId): set<VEdgeId>
  {
    set v | v in a.vedges && a.vedges[v].end == q
  }

  /** The references the live virtual edges hold on `q`: one per end of each that sits on it. */
  function VRefs(a: Arena, q: PointId): nat
  {
    |StartingAt(a, q)| + |EndingAt(a, q)|
  }

  /**
   * Every virtual edge names allocated points, and every point holds at
   * least the references the live virtual edges took on it.
   */
  predicate RefsCover(a: Arena)
  {
    && (forall v :: v in a.vedges ==> a.vedges[v].start in a.points && a.vedges[v].end in a.points)
    && (forall q :: q in a.points ==> a.points[q].refcount >= VRefs(a, q))
  }

  /** Under the accounting invariant any live virtual edge can be freed. */
  lemma CoverHeld(a: Arena, v: VEdgeId)
    requires RefsCover(a) && v in a.vedges
    ensures PointsHeld(a, v)
  {
    var ve := a.vedges[v];
    assert v in StartingAt(a, ve.start) && v in EndingAt(a, ve.end);
    assert |StartingAt(a, ve.start) - {v}| == |StartingAt(a, ve.start)| - 1;
    assert |EndingAt(a, ve.end) - {v}| == |EndingAt(a, ve.end)| - 1;
  }

  /** p2tr_vedge_new keeps the accounting: the point references grow with the new edge's. */
  lemma NewCover(a: Arena, s: PointId, e: PointId)
    requires Allocated(a) && RefsCover(a) && s in a.points && e in a.points
    ensures RefsCover(New(a, s, e).0)
  {
    var (b, v) := New(a, s, e);
    AddedCover(a, b, v, s, e);
  }

  lemma AddedCover(a: Arena, b: Arena, v: VEdgeId, s: PointId, e: PointId)
    requires RefsCover(a) && s in a.points && e in a.points
    requires v !in a.vedges && b.vedges == a.vedges[v := VEdge(s, e, 1)]
    requires b.points.Keys == a.points.Keys
    requires forall q :: q in a.points ==> b.points[q].refcount == a.points[q].refcount + Holds(q, s, e)
    ensures RefsCover(b)
  {
    forall q | q in b.points
      ensures b.points[q].refcount >= VRefs(b, q)
    {
      AddedRefs(a, b, v, s, e, q);
    }
  }

  /** A fresh virtual edge from `s` to `e` adds exactly its own references to what `q` carries. */
  lemma AddedRefs(a: Arena, b: Arena, v: VEdgeId, s: PointId, e: PointId, q: PointId)
    requires v !in a.vedges && b.vedges == a.vedges[v := VEdge(s, e, 1)]
    ensures VRefs(b, q) == VRefs(a, q) + Holds(q, s, e)
  {
    AddedStarts(a, b, v, s, e, q);
    AddedEnds(a, b, v, s, e, q);
  }

  lemma AddedStarts(a: Arena, b: Arena, v: VEdgeId, s: PointId, e: PointId, q: PointId)
    requires v !in a.vedges && b.vedges == a.vedges[v := VEdge(s, e, 1)]
    ensures |StartingAt(b, q)| == |StartingAt(a, q)| + (if q == s then 1 else 0)
  {
    if q == s {
      assert StartingAt(b, q) == StartingAt(a, q) + {v};
    } else {
      assert StartingAt(b, q) == StartingAt(a, q);
    }
  }

  lemma AddedEnds(a: Arena, b: Arena, v: VEdgeId, s: PointId, e: PointId, q: PointId)
    requires v !in a.vedges && b.vedges == a.vedges[v := VEdge(s, e, 1)]
    ensures |EndingAt(b, q)| == |EndingAt(a, q)| + (if q == e then 1 else 0)
  {
    if q == e {
      assert EndingAt(b, q) == EndingAt(a, q) + {v};
    } else {
      assert EndingAt(b, q) == EndingAt(a, q);
    }
  }

  /** p2tr_vedge_free keeps the accounting: the point references shrink with the freed edge's. */
  lemma FreeCover(a: Arena, v: VEdgeId)
    requires RefsCover(a) && v in a.vedges
    ensures PointsHeld(a, v) && RefsCover(Free(a, v))
  {
    CoverHeld(a, v);
    var b := Free(a, v);
    var ve := a.vedges[v];
    forall q | q in b.points
      ensures b.points[q].refcount >= VRefs(b, q)
    {
      assert StartingAt(b, q) == StartingAt(a, q) - {v};
      assert EndingAt(b, q) == EndingAt(a, q) - {v};
      assert v in StartingAt(a, q) <==> q == ve.start;
      assert v in EndingAt(a, q) <==> q == ve.end;
    }
  }

  /** A change to virtual-edge counts alone keeps the accounting. */
  lemma CountsCover(a: Arena, b: Arena)
    requires RefsCover(a) && b.points == a.points && b.vedges.Keys == a.vedges.Keys
    requires forall v :: v in a.vedges ==> b.vedges[v].start == a.vedges[v].start && b.vedges[v].end == a.vedges[v].end
    ensures RefsCover(b)
  {
    forall q | q in b.points
      ensures VRefs(b, q) == VRefs(a, q)
    {
      assert StartingAt(b, q) == StartingAt(a, q);
      assert EndingAt(b, q) == EndingAt(a, q);
    }
  }

  /** p2tr_vedge_unref keeps the accounting whether or not it frees. */
  lemma UnrefCover(a: Arena, v: VEdgeId)
    requires RefsCover(a) && v in a.vedges && a.vedges[v].refcount > 0
    ensures PointsHeld(a, v) && RefsCover(Unref(a, v))
  {
    CoverHeld(a, v);
    if a.vedges[v].refcount == 1 {
      FreeCover(a, v);
    } else {
      CountsCover(a, Unref(a, v));
    }
  }

  /** A change that keeps the virtual edges and every point's reference count keeps the accounting. */
  lemma FrameCover(a: Arena, b: Arena)
    requires RefsCover(a) && b.vedges == a.vedges && a.points.Keys <= b.points.Keys
    requires forall q :: q in a.points ==> b.points[q].refcount == a.points[q].refcount
    ensures RefsCover(b)
  {
    forall q | q in b.points
      ensures b.points[q].refcount >= VRefs(b, q)
    {
      assert StartingAt(b, q) == StartingAt(a, q);
      assert EndingAt(b, q) == EndingAt(a, q);
      if q !in a.points {
        assert StartingAt(a, q) == {} && EndingAt(a, q) == {};
      }
    }
  }

  /** The accounting reads only the points and the virtual edges. */
  lemma SameRefsCover(a: Arena, b: Arena)
    requires RefsCover(a) && b.points == a.points && b.vedges == a.vedges
    ensures RefsCover(b)
  {
    assert forall q :: StartingAt(b, q) == StartingAt(a, q) && EndingAt(b, q) == EndingAt(a, q);
  }
}
