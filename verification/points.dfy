/**
 * The two point operations the virtual-edge code calls: taking and releasing
 * a reference, and looking up an outgoing half-edge towards another point.
 * point.c itself is not part of this model; these are written from the way
 * vedge.c uses them.
 */
module Points {
  import opened Wrappers
  import opened Topology

  /** Every half-edge listed as outgoing from `s` is allocated. */
  predicate OutgoingAllocated(a: Arena, s: PointId)
    requires s in a.points
  {
    forall x :: x in a.points[s].outgoing ==> x in a.edges
  }

  /**
   * The first half-edge in `out` whose end is `end`, scanning the list in
   * order the way the outgoing-edge list of a point is walked.
   */
  function FirstTo(a: Arena, out: seq<EdgeId>, end: PointId): (r: Option<EdgeId>)
    requires forall x :: x in out ==> x in a.edges
    ensures r.Some? ==> r.value in out && a.edges[r.value].end == end
    ensures r.None? <==> forall x :: x in out ==> a.edges[x].end != end
    ensures r.Some? ==> exists i :: 0 <= i < |out| && out[i] == r.value
                                    && forall j :: 0 <= j < i ==> a.edges[out[j]].end != end
  {
    if out == [] then None
    else if a.edges[out[0]].end == end then Some(out[0])
    else
      var r := FirstTo(a, out[1..], end);
      assert forall x :: x in out ==> x == out[0] || x in out[1..];
      if r.Some? then
        var i :| 0 <= i < |out[1..]| && out[1..][i] == r.value
                 && forall j :: 0 <= j < i ==> a.edges[out[1..][j]].end != end;
        assert out[i + 1] == r.value;
        r
      else r
  }

  /**
   * p2tr_point_has_edge_to: the outgoing half-edge of `s` that ends at `end`,
   * or None when `s` has no such edge. No side effects.
   */
  function EdgeTo(a: Arena, s: PointId, end: PointId): (r: Option<EdgeId>)
    requires s in a.points && OutgoingAllocated(a, s)
    ensures r.Some? ==> r.value in a.points[s].outgoing && a.edges[r.value].end == end
    ensures r.None? <==> forall x :: x in a.points[s].outgoing ==> a.edges[x].end != end
  {
    FirstTo(a, a.points[s].outgoing, end)
  }

  /** p2tr_point_ref: one more reference to the point; nothing else changes. */
  function Ref(a: Arena, p: PointId): (r: Arena)
    requires p in a.points
    ensures r.points.Keys == a.points.Keys
    ensures r.points[p].refcount == a.points[p].refcount + 1
    ensures r.points[p] == a.points[p].(refcount := r.points[p].refcount)
    ensures forall q :: q in a.points && q != p ==> r.points[q] == a.points[q]
    ensures r == a.(points := r.points)
  {
    a.(points := a.points[p := a.points[p].(refcount := a.points[p].refcount + 1)])
  }

  /** p2tr_point_unref: release one reference to the point, which must hold one; nothing else changes. */
  function Unref(a: Arena, p: PointId): (r: Arena)
    requires p in a.points && a.points[p].refcount > 0
    ensures r.points.Keys == a.points.Keys
    ensures r.points[p].refcount == a.points[p].refcount - 1
    ensures r.points[p] == a.points[p].(refcount := r.points[p].refcount)
    ensures forall q :: q in a.points && q != p ==> r.points[q] == a.points[q]
    ensures r == a.(points := r.points)
  {
    a.(points := a.points[p := a.points[p].(refcount := a.points[p].refcount - 1)])
  }

  /** Releasing a reference just taken gives back the arena unchanged. */
  lemma RefThenUnref(a: Arena, p: PointId)
    requires p in a.points
    ensures Unref(Ref(a, p), p) == a
  {
    assert Unref(Ref(a, p), p).points == a.points;
  }
}
