/**
 * The arena in which the refinement layer's entities live. Every C handle
 * (P2trPoint*, P2trEdge*, P2trTriangle*, P2trVEdge*) becomes a natural-number
 * id into one of the arena's maps, and the mesh (P2trMesh) becomes three
 * membership sets over those ids.
 *
 * Reference counts record only the references that the modelled operations
 * take and release explicitly (callers' handles, virtual edges holding their
 * points); the references that structural links hold are taken in files that
 * are not part of this model and are not counted.
 */
module Topology {
  import opened Wrappers

  type PointId = nat
  type EdgeId = nat
  type TriId = nat
  type VEdgeId = nat
  type MeshId = nat

  /** A 2-D coordinate. Only the geometric oracles ever look at it. */
  datatype Vector2 = Vector2(x: real, y: real)

  /** A point: its coordinate, its outgoing half-edges, the mesh it belongs to and its reference count. */
  datatype Point = Point(c: Vector2, outgoing: seq<EdgeId>, mesh: Option<MeshId>, refcount: nat)

  /**
   * A half-edge (P2trEdge_): its end point, the half-edge running the other
   * way, the constrained flag, the triangle it runs clockwise around (if any),
   * the flip-fix scratch flag and its reference count. The cached angle is
   * floating point and is left out.
   */
  datatype Edge = Edge(end: PointId, mirror: EdgeId, constrained: bool, tri: Option<TriId>,
                       delaunay: bool, refcount: nat)

  /** A triangle: three half-edges AB, BC, CA chaining head to tail. */
  datatype Triangle = Triangle(ab: EdgeId, bc: EdgeId, ca: EdgeId, refcount: nat)

  /** A virtual ("potential") edge: exactly a start point, an end point and a reference count. */
  datatype VEdge = VEdge(start: PointId, end: PointId, refcount: nat)

  /** The mesh (P2trMesh_): three membership sets plus a reference count. */
  datatype Mesh = Mesh(triangles: set<TriId>, edges: set<EdgeId>, points: set<PointId>, refcount: nat)

  /**
   * All allocated entities, the one mesh they may belong to (with its id) and
   * the next unused id. An entity may be allocated without belonging to the
   * mesh: removal from the mesh and deallocation are distinct.
   */
  datatype Arena = Arena(points: map<PointId, Point>, edges: map<EdgeId, Edge>,
                         tris: map<TriId, Triangle>, vedges: map<VEdgeId, VEdge>,
                         id: MeshId, mesh: Mesh, next: nat)

  /** Every allocated id lies below the allocator's counter, so `next` is always fresh. */
  predicate Allocated(a: Arena)
  {
    && (forall p :: p in a.points ==> p < a.next)
    && (forall e :: e in a.edges ==> e < a.next)
    && (forall t :: t in a.tris ==> t < a.next)
    && (forall v :: v in a.vedges ==> v < a.next)
  }
}
