/**
 * The flip set of poly2tri-c/refine/cdt-flipfix.h: a work queue of virtual
 * edges waiting to be checked by the flip-fix pass, which never holds two
 * virtual edges that are equal when direction is ignored.
 *
 * The set owns one reference to each member. A caller hands a reference in
 * when adding and receives the member's reference when popping.
 */
module FlipSets {
  import opened Wrappers
  import opened Topology
  import Edges
  import VEdges
  import Meshes
  import Points

  // ---------------------------------------------------------------------------
  // Undirected equality and hashing
  // ---------------------------------------------------------------------------

  /** p2tr_vedge_undirected_equals: the same two end points, in either order. */
  predicate UndirectedEquals(v1: VEdge, v2: VEdge)
  {
    || (v1.start == v2.start && v1.end == v2.end)
    || (v1.start == v2.end && v1.end == v2.start)
  }

  /** The unordered pair of end points a virtual edge stands for. */
  function Ends(v: VEdge): set<PointId>
  {
    {v.start, v.end}
  }

  /** Undirected equality is exactly equality of the end-point pairs. */
  lemma UndirectedEqualsEnds(v1: VEdge, v2: VEdge)
    ensures UndirectedEquals(v1, v2) <==> Ends(v1) == Ends(v2)
  {
    if Ends(v1) == Ends(v2) {
      assert v1.start in Ends(v2) && v1.end in Ends(v2);
      assert v2.start in Ends(v1) && v2.end in Ends(v1);
    }
  }

  const HashRange: nat := 0x1_0000_0000

  /**
   * p2tr_vedge_undirected_hash: a 32-bit hash that ignores direction. The
   * endpoint ids stand in for the point addresses the C code hashes.
   */
  function UndirectedHash(v: VEdge): (h: nat)
    ensures h < HashRange
  {
    (v.start + v.end) % HashRange
  }

  /** The hash agrees with undirected equality, as a hash set requires. */
  lemma HashAgrees(v1: VEdge, v2: VEdge)
    requires UndirectedEquals(v1, v2)
    ensures UndirectedHash(v1) == UndirectedHash(v2)
  {
  }

  // ---------------------------------------------------------------------------
  // The set
  // ---------------------------------------------------------------------------

  type FlipSet = seq<VEdgeId>

  /**
   * Every member is a live virtual edge holding the reference the set owns,
   * and no two members are equal undirected (so no id appears twice).
   */
  predicate Valid(a: Arena, fs: FlipSet)
  {
    && (forall i :: 0 <= i < |fs| ==> fs[i] in a.vedges && a.vedges[fs[i]].refcount > 0)
    && (forall i, j :: 0 <= i < j < |fs| && fs[i] in a.vedges && fs[j] in a.vedges ==>
          !UndirectedEquals(a.vedges[fs[i]], a.vedges[fs[j]]))
  }

  /** The unordered end-point pairs the set holds: the set as the hash table sees it. */
  function Keys(a: Arena, fs: FlipSet): set<set<PointId>>
    requires forall i :: 0 <= i < |fs| ==> fs[i] in a.vedges
  {
    set i | 0 <= i < |fs| :: Ends(a.vedges[fs[i]])
  }

  /** p2tr_flip_set_new: the empty set. */
  function New(): (r: FlipSet)
    ensures |r| == 0
  {
    []
  }

  /**
   * The position of the first member equal undirected to `ve`, or None when
   * the set holds no such member.
   */
  function IndexOfEqual(a: Arena, fs: FlipSet, ve: VEdge): (r: Option<nat>)
    requires forall i :: 0 <= i < |fs| ==> fs[i] in a.vedges
    ensures r.Some? ==> r.value < |fs| && UndirectedEquals(a.vedges[fs[r.value]], ve)
    ensures r.None? <==> forall i :: 0 <= i < |fs| ==> !UndirectedEquals(a.vedges[fs[i]], ve)
  {
    if fs == [] then None
    else if UndirectedEquals(a.vedges[fs[0]], ve) then Some(0)
    else
      match IndexOfEqual(a, fs[1..], ve)
      case None =>
        assert forall i :: 1 <= i < |fs| ==> fs[i] == fs[1..][i - 1];
        None
      case Some(k) => Some(k + 1)
  }

  /**
   * p2tr_flip_set_add2: hand the caller's reference to `v` to the set. When
   * the set already holds an undirected-equal member the set is unchanged
   * and the handed-in reference is released; otherwise `v` joins the set.
   * The caller's reference is separate from the set's, so a member being
   * re-added has at least two.
   */
  function Add2(a: Arena, fs: FlipSet, v: VEdgeId): (r: (Arena, FlipSet))
    requires Valid(a, fs) && v in a.vedges && a.vedges[v].refcount > (if v in fs then 1 else 0)
    requires a.vedges[v].refcount == 1 ==> VEdges.PointsHeld(a, v)
    ensures Valid(r.0, r.1)
    ensures forall w :: w in a.vedges && w != v ==> w in r.0.vedges && r.0.vedges[w] == a.vedges[w]
    ensures r.0.edges == a.edges && r.0.tris == a.tris && r.0.mesh == a.mesh && r.0.id == a.id && r.0.next == a.next
    ensures r.0.points.Keys == a.points.Keys && VEdges.CountsOnly(a, r.0)
    ensures r.0.vedges.Keys <= a.vedges.Keys + {v}
    ensures Keys(r.0, r.1) == Keys(a, fs) + {Ends(a.vedges[v])}
    ensures (exists i :: 0 <= i < |fs| && UndirectedEquals(a.vedges[fs[i]], a.vedges[v])) ==>
      && r.1 == fs
      && if a.vedges[v].refcount > 1 then v in r.0.vedges && r.0.vedges[v].refcount == a.vedges[v].refcount - 1
         else v !in r.0.vedges
    ensures (forall i :: 0 <= i < |fs| ==> !UndirectedEquals(a.vedges[fs[i]], a.vedges[v])) ==>
      r.1 == fs + [v] && r.0 == a
  {
    match IndexOfEqual(a, fs, a.vedges[v])
    case Some(k) =>
      DuplicateKeeps(a, fs, v, k);
      (VEdges.Unref(a, v), fs)
    case None =>
      AppendKeys(a, fs, v);
      (a, fs + [v])
  }

  /** The duplicate branch of Add2: releasing the handed-in reference keeps the set and its keys. */
  lemma DuplicateKeeps(a: Arena, fs: FlipSet, v: VEdgeId, k: nat)
    requires Valid(a, fs) && v in a.vedges && a.vedges[v].refcount > (if v in fs then 1 else 0)
    requires a.vedges[v].refcount == 1 ==> VEdges.PointsHeld(a, v)
    requires k < |fs| && UndirectedEquals(a.vedges[fs[k]], a.vedges[v])
    ensures var b := VEdges.Unref(a, v);
      && Valid(b, fs)
      && Keys(b, fs) == Keys(a, fs) + {Ends(a.vedges[v])}
  {
    var b := VEdges.Unref(a, v);
    UnrefKeepsMembers(a, fs, v);
    UndirectedEqualsEnds(a.vedges[fs[k]], a.vedges[v]);
    assert Ends(a.vedges[v]) in Keys(a, fs);
    SameEndsKeys(a, b, fs);
  }

  /** Members whose end-point pairs did not change give the same keys. */
  lemma SameEndsKeys(a: Arena, b: Arena, fs: FlipSet)
    requires forall i :: 0 <= i < |fs| ==> fs[i] in a.vedges && fs[i] in b.vedges
    requires forall i :: 0 <= i < |fs| ==> Ends(b.vedges[fs[i]]) == Ends(a.vedges[fs[i]])
    ensures Keys(b, fs) == Keys(a, fs)
  {
  }

  /** Releasing a reference that is not the set's own leaves every member's record as it was. */
  lemma UnrefKeepsMembers(a: Arena, fs: FlipSet, v: VEdgeId)
    requires Valid(a, fs) && v in a.vedges && a.vedges[v].refcount > (if v in fs then 1 else 0)
    requires a.vedges[v].refcount == 1 ==> VEdges.PointsHeld(a, v)
    ensures var b := VEdges.Unref(a, v);
      && Valid(b, fs)
      && (forall i :: 0 <= i < |fs| ==> fs[i] in b.vedges && Ends(b.vedges[fs[i]]) == Ends(a.vedges[fs[i]]))
  {
    var b := VEdges.Unref(a, v);
    if a.vedges[v].refcount > 1 {
      assert b.vedges == a.vedges[v := a.vedges[v].(refcount := a.vedges[v].refcount - 1)];
    } else {
      assert v !in fs;
      assert b.vedges == a.vedges - {v};
    }
  }

  /** Appending a member not equal to any other keeps the set valid and adds its end-point pair. */
  lemma AppendKeys(a: Arena, fs: FlipSet, v: VEdgeId)
    requires Valid(a, fs) && v in a.vedges && a.vedges[v].refcount > 0
    requires forall i :: 0 <= i < |fs| ==> !UndirectedEquals(a.vedges[fs[i]], a.vedges[v])
    ensures Valid(a, fs + [v])
    ensures Keys(a, fs + [v]) == Keys(a, fs) + {Ends(a.vedges[v])}
  {
    var gs := fs + [v];
    assert forall i :: 0 <= i < |fs| ==> gs[i] == fs[i];
    assert gs[|fs|] == v;
    forall k | k in Keys(a, gs)
      ensures k in Keys(a, fs) + {Ends(a.vedges[v])}
    {
      var i :| 0 <= i < |gs| && k == Ends(a.vedges[gs[i]]);
      if i < |fs| {
        assert k == Ends(a.vedges[fs[i]]);
      }
    }
    forall k | k in Keys(a, fs)
      ensures k in Keys(a, gs)
    {
      var i :| 0 <= i < |fs| && k == Ends(a.vedges[fs[i]]);
      assert k == Ends(a.vedges[gs[i]]);
    }
    assert Ends(a.vedges[v]) == Ends(a.vedges[gs[|fs|]]);
  }

  /** Members whose records did not change keep the set valid and its keys the same. */
  lemma MembersKept(a: Arena, b: Arena, fs: FlipSet)
    requires Valid(a, fs)
    requires forall i :: 0 <= i < |fs| ==> fs[i] in b.vedges && b.vedges[fs[i]] == a.vedges[fs[i]]
    ensures Valid(b, fs) && Keys(b, fs) == Keys(a, fs)
  {
  }

  /**
   * p2tr_flip_set_add: add the virtual edge of half-edge `x`, whose caller
   * reference is then released. The set gains the end-point pair of `x`
   * unless it held it already, in either direction; no virtual edge that
   * was live before changes.
   */
  function Add(a: Arena, fs: FlipSet, x: EdgeId): (r: (Arena, FlipSet))
    requires Allocated(a) && Valid(a, fs)
    requires x in a.edges && a.edges[x].mirror in a.edges && a.edges[x].refcount > 0
    requires Edges.Start(a, x) in a.points && a.edges[x].end in a.points
    ensures r.0.edges == a.edges[x := a.edges[x].(refcount := a.edges[x].refcount - 1)]
    ensures r.0.points.Keys == a.points.Keys && r.0.tris == a.tris && r.0.mesh == a.mesh && r.0.id == a.id
    ensures VEdges.CountsOnly(a, r.0)
    ensures forall w :: w in a.vedges ==> w in r.0.vedges && r.0.vedges[w] == a.vedges[w]
    ensures Allocated(r.0) && Valid(r.0, r.1)
    ensures Keys(r.0, r.1) == Keys(a, fs) + {{Edges.Start(a, x), a.edges[x].end}}
  {
    AddFrame(a, fs, x);
    AddCounts(a, fs, x);
    AddLive(a, fs, x);
    AddAllocated(a, fs, x);
    AddKeys(a, fs, x);
    AddSteps(a, fs, x)
  }

  /** The steps of p2tr_flip_set_add: new2, add2, then release the half-edge. */
  function AddSteps(a: Arena, fs: FlipSet, x: EdgeId): (Arena, FlipSet)
    requires Allocated(a) && Valid(a, fs)
    requires x in a.edges && a.edges[x].mirror in a.edges && a.edges[x].refcount > 0
    requires Edges.Start(a, x) in a.points && a.edges[x].end in a.points
  {
    var (b, v) := VEdges.New2(a, x);
    MembersKept(a, b, fs);
    var (c, gs) := Add2(b, fs, v);
    (Edges.Unref(c, x), gs)
  }

  lemma AddFrame(a: Arena, fs: FlipSet, x: EdgeId)
    requires Allocated(a) && Valid(a, fs)
    requires x in a.edges && a.edges[x].mirror in a.edges && a.edges[x].refcount > 0
    requires Edges.Start(a, x) in a.points && a.edges[x].end in a.points
    ensures var r := AddSteps(a, fs, x);
      && r.0.edges == a.edges[x := a.edges[x].(refcount := a.edges[x].refcount - 1)]
      && r.0.points.Keys == a.points.Keys && r.0.tris == a.tris && r.0.mesh == a.mesh && r.0.id == a.id
  {
    var (b, v) := VEdges.New2(a, x);
    MembersKept(a, b, fs);
    var (c, gs) := Add2(b, fs, v);
    Edges.UnrefEdges(a, c, x);
  }

  lemma AddCounts(a: Arena, fs: FlipSet, x: EdgeId)
    requires Allocated(a) && Valid(a, fs)
    requires x in a.edges && a.edges[x].mirror in a.edges && a.edges[x].refcount > 0
    requires Edges.Start(a, x) in a.points && a.edges[x].end in a.points
    ensures VEdges.CountsOnly(a, AddSteps(a, fs, x).0)
  {
    var (b, v) := VEdges.New2(a, x);
    MembersKept(a, b, fs);
    var (c, gs) := Add2(b, fs, v);
    assert VEdges.CountsOnly(a, b);
    VEdges.CountsOnlyTrans(a, b, c);
    VEdges.CountsOnlyTrans(a, c, Edges.Unref(c, x));
  }

  lemma AddLive(a: Arena, fs: FlipSet, x: EdgeId)
    requires Allocated(a) && Valid(a, fs)
    requires x in a.edges && a.edges[x].mirror in a.edges && a.edges[x].refcount > 0
    requires Edges.Start(a, x) in a.points && a.edges[x].end in a.points
    ensures var r := AddSteps(a, fs, x);
      forall w :: w in a.vedges ==> w in r.0.vedges && r.0.vedges[w] == a.vedges[w]
  {
    var (b, v) := VEdges.New2(a, x);
    MembersKept(a, b, fs);
    var (c, gs) := Add2(b, fs, v);
    AddedFrame(a, b, c, Edges.Unref(c, x), v, b.vedges[v]);
  }

  lemma AddAllocated(a: Arena, fs: FlipSet, x: EdgeId)
    requires Allocated(a) && Valid(a, fs)
    requires x in a.edges && a.edges[x].mirror in a.edges && a.edges[x].refcount > 0
    requires Edges.Start(a, x) in a.points && a.edges[x].end in a.points
    ensures Allocated(AddSteps(a, fs, x).0)
  {
    var (b, v) := VEdges.New2(a, x);
    MembersKept(a, b, fs);
    var (c, gs) := Add2(b, fs, v);
    AddedFrame(a, b, c, Edges.Unref(c, x), v, b.vedges[v]);
  }

  lemma AddKeys(a: Arena, fs: FlipSet, x: EdgeId)
    requires Allocated(a) && Valid(a, fs)
    requires x in a.edges && a.edges[x].mirror in a.edges && a.edges[x].refcount > 0
    requires Edges.Start(a, x) in a.points && a.edges[x].end in a.points
    ensures var r := AddSteps(a, fs, x);
      && (forall i :: 0 <= i < |r.1| ==> r.1[i] in r.0.vedges)
      && Valid(r.0, r.1)
      && Keys(r.0, r.1) == Keys(a, fs) + {{Edges.Start(a, x), a.edges[x].end}}
  {
    var (b, v) := VEdges.New2(a, x);
    MembersKept(a, b, fs);
    var (c, gs) := Add2(b, fs, v);
    assert Edges.Unref(c, x).vedges == c.vedges;
  }

  /** What Add2 leaves of a fresh virtual edge's arena, seen from before it was made. */
  lemma AddedFrame(a: Arena, b: Arena, c: Arena, d: Arena, v: VEdgeId, ve: VEdge)
    requires Allocated(a) && v !in a.vedges && b.vedges == a.vedges[v := ve]
    requires Allocated(b) && c.next == b.next && c.vedges.Keys <= b.vedges.Keys + {v}
    requires forall w :: w in b.vedges && w != v ==> w in c.vedges && c.vedges[w] == b.vedges[w]
    requires c.points.Keys == b.points.Keys && c.edges == b.edges && c.tris == b.tris
    requires d == c.(edges := d.edges) && d.edges.Keys == c.edges.Keys
    ensures forall w :: w in a.vedges ==> w in d.vedges && d.vedges[w] == a.vedges[w]
    ensures Allocated(d)
  {
  }

  /** p2tr_flip_set_add2 keeps the reference accounting. */
  lemma Add2Cover(a: Arena, fs: FlipSet, v: VEdgeId)
    requires Valid(a, fs) && VEdges.RefsCover(a)
    requires v in a.vedges && a.vedges[v].refcount > (if v in fs then 1 else 0)
    ensures a.vedges[v].refcount == 1 ==> VEdges.PointsHeld(a, v)
    ensures VEdges.RefsCover(Add2(a, fs, v).0)
  {
    VEdges.UnrefCover(a, v);
  }

  /** p2tr_flip_set_add keeps the reference accounting. */
  lemma AddCover(a: Arena, fs: FlipSet, x: EdgeId)
    requires Allocated(a) && Valid(a, fs) && VEdges.RefsCover(a)
    requires x in a.edges && a.edges[x].mirror in a.edges && a.edges[x].refcount > 0
    requires Edges.Start(a, x) in a.points && a.edges[x].end in a.points
    ensures VEdges.RefsCover(Add(a, fs, x).0)
  {
    AddStepsCover(a, fs, x);
    assert Add(a, fs, x) == AddSteps(a, fs, x);
  }

  lemma AddStepsCover(a: Arena, fs: FlipSet, x: EdgeId)
    requires Allocated(a) && Valid(a, fs) && VEdges.RefsCover(a)
    requires x in a.edges && a.edges[x].mirror in a.edges && a.edges[x].refcount > 0
    requires Edges.Start(a, x) in a.points && a.edges[x].end in a.points
    ensures VEdges.RefsCover(AddSteps(a, fs, x).0)
  {
    var (b, v) := VEdges.New2(a, x);
    VEdges.NewCover(a, Edges.Start(a, x), a.edges[x].end);
    MembersKept(a, b, fs);
    Add2Cover(b, fs, v);
    var (c, gs) := Add2(b, fs, v);
    VEdges.SameRefsCover(c, Edges.Unref(c, x));
  }

  /**
   * p2tr_flip_set_pop: None exactly when the set is empty; otherwise one
   * member leaves the set and its reference passes to the caller.
   */
  function Pop(fs: FlipSet): (r: (FlipSet, Option<VEdgeId>))
    ensures r.1.None? <==> |fs| == 0
    ensures r.1.None? ==> r.0 == fs
    ensures r.1.Some? ==> r.1.value in fs && multiset(fs) == multiset(r.0) + multiset{r.1.value}
    ensures |r.0| == if |fs| == 0 then 0 else |fs| - 1
  {
    if fs == [] then ([], None)
    else
      assert fs == [fs[0]] + fs[1..];
      (fs[1..], Some(fs[0]))
  }

  /**
   * Popping keeps the set valid and removes the popped member's end-point
   * pair completely, since no other member shares it.
   */
  lemma PopKeeps(a: Arena, fs: FlipSet)
    requires Valid(a, fs) && |fs| > 0
    ensures var (rest, v) := Pop(fs);
      && v.Some? && v.value in a.vedges && a.vedges[v.value].refcount > 0
      && Valid(a, rest)
      && Keys(a, fs) == Keys(a, rest) + {Ends(a.vedges[v.value])}
      && Ends(a.vedges[v.value]) !in Keys(a, rest)
  {
    var (rest, v) := Pop(fs);
    assert rest == fs[1..] && v.value == fs[0];
    forall k | k in Keys(a, rest)
      ensures k != Ends(a.vedges[fs[0]])
    {
      var i :| 0 <= i < |rest| && k == Ends(a.vedges[rest[i]]);
      assert rest[i] == fs[i + 1];
      UndirectedEqualsEnds(a.vedges[fs[0]], a.vedges[fs[i + 1]]);
    }
    forall k | k in Keys(a, fs)
      ensures k in Keys(a, rest) + {Ends(a.vedges[fs[0]])}
    {
      var i :| 0 <= i < |fs| && k == Ends(a.vedges[fs[i]]);
      if i > 0 {
        assert fs[i] == rest[i - 1];
      }
    }
    forall k | k in Keys(a, rest)
      ensures k in Keys(a, fs)
    {
      var i :| 0 <= i < |rest| && k == Ends(a.vedges[rest[i]]);
      assert rest[i] == fs[i + 1];
    }
  }

  /**
   * Adding a virtual edge whose end-point pair the set already holds, in
   * either direction, leaves the set as it was.
   */
  lemma AddPresent(a: Arena, fs: FlipSet, v: VEdgeId)
    requires Valid(a, fs) && v in a.vedges && a.vedges[v].refcount > (if v in fs then 1 else 0)
    requires a.vedges[v].refcount == 1 ==> VEdges.PointsHeld(a, v)
    requires Ends(a.vedges[v]) in Keys(a, fs)
    ensures Add2(a, fs, v).1 == fs
  {
    var i :| 0 <= i < |fs| && Ends(a.vedges[v]) == Ends(a.vedges[fs[i]]);
    UndirectedEqualsEnds(a.vedges[fs[i]], a.vedges[v]);
  }

  /** Adding one virtual edge leaves every other as it was, and puts none of them in the set. */
  lemma AddOther(a: Arena, fs: FlipSet, v1: VEdgeId, v2: VEdgeId)
    requires Valid(a, fs) && v1 in a.vedges && a.vedges[v1].refcount > (if v1 in fs then 1 else 0)
    requires a.vedges[v1].refcount == 1 ==> VEdges.PointsHeld(a, v1)
    requires v2 in a.vedges && v2 != v1
    ensures var (b, gs) := Add2(a, fs, v1);
      v2 in b.vedges && b.vedges[v2] == a.vedges[v2] && (v2 in gs ==> v2 in fs)
  {
    var (b, gs) := Add2(a, fs, v1);
    if exists i :: 0 <= i < |fs| && UndirectedEquals(a.vedges[fs[i]], a.vedges[v1]) {
      assert gs == fs;
    } else {
      assert gs == fs + [v1];
    }
  }

  /**
   * Adding the same edge twice, in either direction, leaves one entry for
   * it: the second add changes nothing in the set.
   */
  lemma AddTwice(a: Arena, fs: FlipSet, v1: VEdgeId, v2: VEdgeId)
    requires Valid(a, fs) && VEdges.RefsCover(a)
    requires v1 in a.vedges && a.vedges[v1].refcount > (if v1 in fs then 1 else 0)
    requires a.vedges[v1].refcount == 1 ==> VEdges.PointsHeld(a, v1)
    requires v2 in a.vedges && v2 != v1 && a.vedges[v2].refcount > (if v2 in fs then 1 else 0)
    requires UndirectedEquals(a.vedges[v1], a.vedges[v2])
    ensures var (b, gs) := Add2(a, fs, v1);
      && v2 in b.vedges && b.vedges[v2].refcount > (if v2 in gs then 1 else 0)
      && (b.vedges[v2].refcount == 1 ==> VEdges.PointsHeld(b, v2))
      && Add2(b, gs, v2).1 == gs
  {
    Add2Cover(a, fs, v1);
    AddOther(a, fs, v1, v2);
    var (b, gs) := Add2(a, fs, v1);
    VEdges.CoverHeld(b, v2);
    UndirectedEqualsEnds(a.vedges[v1], a.vedges[v2]);
    AddPresent(b, gs, v2);
  }

  /**
   * What flip-fix keeps from one candidate to the next: a sound simple
   * mesh, a valid flip set, and points holding the references their virtual
   * edges took.
   */
  predicate Fixing(a: Arena, fs: FlipSet)
  {
    Meshes.Wf(a) && Meshes.Simple(a) && Valid(a, fs) && VEdges.RefsCover(a)
  }

  /** `b` has the half-edges, triangles and mesh of `a`: only reference counts and virtual edges differ. */
  predicate SameMesh(a: Arena, b: Arena)
  {
    b.edges == a.edges && b.tris == a.tris && b.mesh == a.mesh && b.id == a.id
  }

  /**
   * The head of flip-fix's loop on a non-empty set: the first member is
   * popped and resolved with p2tr_vedge_try_get_and_unref, which releases
   * the reference the set held. The reference the lookup takes on the
   * half-edge it finds is released again at once, so no half-edge's count
   * changes. The popped pair leaves the set, and the result names the
   * mesh's half-edge between the pair's points exactly when there is one.
   */
  function Next(a: Arena, fs: FlipSet): (r: (Arena, FlipSet, Option<EdgeId>))
    requires Meshes.Wf(a) && Valid(a, fs) && VEdges.RefsCover(a) && |fs| > 0
    ensures r.0.edges == a.edges && r.0.tris == a.tris && r.0.mesh == a.mesh && r.0.id == a.id
    ensures r.0.next == a.next && r.0.vedges.Keys <= a.vedges.Keys && VEdges.CountsOnly(a, r.0)
    ensures Valid(r.0, r.1) && VEdges.RefsCover(r.0) && |r.1| == |fs| - 1
    ensures fs[0] in a.vedges && Ends(a.vedges[fs[0]]) !in Keys(r.0, r.1)
    ensures Keys(a, fs) == Keys(r.0, r.1) + {Ends(a.vedges[fs[0]])}
    ensures r.2.Some? <==> Meshes.HasEdge(a, a.vedges[fs[0]].start, a.vedges[fs[0]].end)
    ensures r.2.Some? ==>
      r.2.value in a.mesh.edges && Meshes.SideOf(a, r.2.value) == (a.vedges[fs[0]].start, a.vedges[fs[0]].end)
  {
    var (rest, popped) := Pop(fs);
    PopKeeps(a, fs);
    var v := popped.value;
    VEdges.CoverHeld(a, v);
    VEdges.IsRealMatches(a, v);
    assert forall i :: 0 <= i < |rest| ==> rest[i] != v by {
      forall i | 0 <= i < |rest| ensures rest[i] != v {
        assert Ends(a.vedges[rest[i]]) in Keys(a, rest);
      }
    }
    NextStepsCover(a, rest, v);
    NextSteps(a, rest, rest, v)
  }

  /** Next once the member `v` is popped, leaving `rest`. */
  function NextSteps(a: Arena, fs: FlipSet, rest: FlipSet, v: VEdgeId): (r: (Arena, FlipSet, Option<EdgeId>))
    requires Meshes.Wf(a) && v in a.vedges && a.vedges[v].refcount > 0
    requires VEdges.PointsHeld(a, v) && Points.OutgoingAllocated(a, a.vedges[v].start)
    ensures r.0.edges == a.edges && r.0.tris == a.tris && r.0.mesh == a.mesh && r.0.id == a.id
    ensures r.0.next == a.next && r.0.vedges.Keys <= a.vedges.Keys && VEdges.CountsOnly(a, r.0)
    ensures r.1 == rest && r.2 == VEdges.IsReal(a, v)
  {
    var found := VEdges.IsReal(a, v);
    var held := if found.Some? then Edges.Ref(a, found.value) else a;
    var c := VEdges.Unref(held, v);
    assert c == VEdges.TryGetAndUnref(a, v).0;
    if found.Some? then
      Edges.RefThenUnref(a, found.value);
      Edges.UnrefEdges(held, c, found.value);
      Edges.UnrefEdges(held, held, found.value);
      (Edges.Unref(c, found.value), rest, found)
    else
      (c, rest, found)
  }

  /** NextSteps keeps the other members, and the accounting, when `v` is not among them. */
  lemma NextStepsCover(a: Arena, rest: FlipSet, v: VEdgeId)
    requires Meshes.Wf(a) && Valid(a, rest) && VEdges.RefsCover(a) && v in a.vedges && a.vedges[v].refcount > 0
    requires VEdges.PointsHeld(a, v) && Points.OutgoingAllocated(a, a.vedges[v].start)
    requires forall i :: 0 <= i < |rest| ==> rest[i] != v
    ensures var r := NextSteps(a, rest, rest, v);
      Valid(r.0, rest) && VEdges.RefsCover(r.0) && Keys(r.0, rest) == Keys(a, rest)
  {
    var found := VEdges.IsReal(a, v);
    var held := if found.Some? then Edges.Ref(a, found.value) else a;
    MembersKept(a, held, rest);
    VEdges.SameRefsCover(a, held);
    VEdges.UnrefCover(held, v);
    var c := VEdges.Unref(held, v);
    MembersKept(held, c, rest);
    var d := NextSteps(a, rest, rest, v).0;
    assert d.vedges == c.vedges && d.points == c.points;
    MembersKept(c, d, rest);
    VEdges.SameRefsCover(c, d);
  }
}
