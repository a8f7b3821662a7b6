/**
 * The half-edge of refine/edge.h: where it starts, how it relates to its
 * mirror, and its reference count.
 */
module Edges {
  import opened Wrappers
  import opened Topology

  /** Every allocated half-edge has an allocated mirror, distinct from itself, whose mirror is it and which carries the same constrained flag. */
  predicate Mirrored(a: Arena)
  {
    forall e :: e in a.edges ==>
      && a.edges[e].mirror in a.edges
      && a.edges[e].mirror != e
      && a.edges[a.edges[e].mirror].mirror == e
      && a.edges[a.edges[e].mirror].constrained == a.edges[e].constrained
  }

  /** The half-edge running the other way. */
  function Mirror(a: Arena, e: EdgeId): EdgeId
    requires e in a.edges
  {
    a.edges[e].mirror
  }

  /** P2TR_EDGE_START: a half-edge starts where its mirror ends. */
  function Start(a: Arena, e: EdgeId): PointId
    requires e in a.edges && a.edges[e].mirror in a.edges
  {
    a.edges[a.edges[e].mirror].end
  }

  /**
   * The mirror runs the opposite way: mirroring twice gives the edge back,
   * the mirror starts where the edge ends and ends where it starts.
   */
  lemma MirrorInvolution(a: Arena, e: EdgeId)
    requires Mirrored(a) && e in a.edges
    ensures Mirror(a, e) in a.edges && Mirror(a, Mirror(a, e)) == e && Mirror(a, e) != e
    ensures Start(a, Mirror(a, e)) == a.edges[e].end
    ensures a.edges[Mirror(a, e)].end == Start(a, e)
    ensures a.edges[Mirror(a, e)].constrained == a.edges[e].constrained
  {
  }

  /**
   * Two arenas agree on every allocated half-edge's end, mirror and
   * constrained flag, so they agree on where each of those half-edges starts
   * and on its signature.
   */
  predicate SameLinks(a: Arena, b: Arena)
  {
    && a.edges.Keys <= b.edges.Keys
    && forall e :: e in a.edges ==>
         && b.edges[e].end == a.edges[e].end && b.edges[e].mirror == a.edges[e].mirror
         && b.edges[e].constrained == a.edges[e].constrained
  }

  lemma SameLinksStart(a: Arena, b: Arena, e: EdgeId)
    requires SameLinks(a, b) && e in a.edges && a.edges[e].mirror in a.edges
    ensures b.edges[e].mirror in b.edges && Start(b, e) == Start(a, e)
  {
  }

  /** p2tr_edge_ref: one more reference to the half-edge; nothing else changes. */
  function Ref(a: Arena, e: EdgeId): (r: Arena)
    requires e in a.edges
    ensures r.edges.Keys == a.edges.Keys
    ensures r.edges[e].refcount == a.edges[e].refcount + 1
    ensures r.edges[e] == a.edges[e].(refcount := r.edges[e].refcount)
    ensures forall x :: x in a.edges && x != e ==> r.edges[x] == a.edges[x]
    ensures r == a.(edges := r.edges)
  {
    a.(edges := a.edges[e := a.edges[e].(refcount := a.edges[e].refcount + 1)])
  }

  /** p2tr_edge_unref: release one reference to the half-edge, which must hold one; nothing else changes. */
  function Unref(a: Arena, e: EdgeId): (r: Arena)
    requires e in a.edges && a.edges[e].refcount > 0
    ensures r.edges.Keys == a.edges.Keys
    ensures r.edges[e].refcount == a.edges[e].refcount - 1
    ensures r.edges[e] == a.edges[e].(refcount := r.edges[e].refcount)
    ensures forall x :: x in a.edges && x != e ==> r.edges[x] == a.edges[x]
    ensures r == a.(edges := r.edges)
  {
    a.(edges := a.edges[e := a.edges[e].(refcount := a.edges[e].refcount - 1)])
  }

  /** Releasing a reference just taken gives back the arena unchanged. */
  lemma RefThenUnref(a: Arena, e: EdgeId)
    requires e in a.edges
    ensures Unref(Ref(a, e), e) == a
  {
    assert Unref(Ref(a, e), e).edges == a.edges;
  }

  /** The half-edge map after a release, as one update. */
  lemma UnrefEdges(a: Arena, b: Arena, e: EdgeId)
    requires b.edges == a.edges && e in a.edges && a.edges[e].refcount > 0
    ensures Unref(b, e).edges == a.edges[e := a.edges[e].(refcount := a.edges[e].refcount - 1)]
  {
  }
}
