/**
 * The constrained Delaunay triangulation of refine/cdt.h, seen through its
 * topology: the pairing of a mesh with its outline, the validity of its
 * edges, and the shapes that point insertion and edge flipping leave.
 * The geometric tests the layer makes (in-circle, point on a segment,
 * point in a triangle) are questions put to an oracle.
 */
module Cdts {
  import opened Wrappers
  import opened Topology
  import opened Edges
  import opened Meshes
  import opened MeshEdits
  import VEdges
  import FlipSets
  import Geometry

  /** A segment of the outline, by the coordinates of its two ends. */
  type Segment = (Vector2, Vector2)

  /** P2trCDT: the mesh being refined and the outline it triangulates. */
  datatype Cdt = Cdt(mesh: Arena, outline: set<Segment>)

  // ---------------------------------------------------------------------------
  // Validity of the edges
  // ---------------------------------------------------------------------------

  /** A half-edge has a triangle on each side, or it is constrained. */
  predicate EdgeValid(a: Arena, x: EdgeId)
    requires x in a.edges && a.edges[x].mirror in a.edges
  {
    a.edges[x].constrained || (a.edges[x].tri.Some? && a.edges[a.edges[x].mirror].tri.Some?)
  }

  /** The property p2tr_cdt_validate_edges checks, for every half-edge of the mesh. */
  predicate EdgesValid(a: Arena)
    requires InArena(a) && Mirrored(a)
  {
    forall x :: x in a.mesh.edges ==> EdgeValid(a, x)
  }

  /**
   * p2tr_cdt_validate_edges: goes over every half-edge of the mesh and
   * reports whether all of them have a triangle on both sides or are
   * constrained.
   */
  method ValidateEdges(c: Cdt) returns (ok: bool)
    requires Wf(c.mesh)
    ensures ok <==> EdgesValid(c.mesh)
  {
    var a := c.mesh;
    var left := a.mesh.edges;
    ok := true;
    while left != {}
      invariant left <= a.mesh.edges
      invariant ok <==> forall x :: x in a.mesh.edges && x !in left ==> EdgeValid(a, x)
      decreases |left|
    {
      var x :| x in left;
      if !EdgeValid(a, x) {
        ok := false;
      }
      left := left - {x};
    }
  }

  /** Validity read off the shape: every unconstrained signature has a triangle on both of its sides. */
  predicate ShapeValid(sh: Shape)
  {
    forall sg :: sg in sh.edges ==> sg.2 || (Covered(sh, (sg.0, sg.1)) && Covered(sh, (sg.1, sg.0)))
  }

  /** In a simple well-formed mesh the edges are valid exactly when its shape is. */
  lemma EdgesValidShape(a: Arena)
    requires Wf(a) && Simple(a)
    ensures EdgesValid(a) <==> ShapeValid(ShapeOf(a))
  {
    if EdgesValid(a) {
      forall sg | sg in ShapeOf(a).edges
        ensures sg.2 || (Covered(ShapeOf(a), (sg.0, sg.1)) && Covered(ShapeOf(a), (sg.1, sg.0)))
      {
        var x :| x in a.mesh.edges && Sig(a, x) == sg;
        assert EdgeValid(a, x);
        EdgeCovered(a, x);
      }
    }
    if ShapeValid(ShapeOf(a)) {
      forall x | x in a.mesh.edges
        ensures EdgeValid(a, x)
      {
        assert Sig(a, x) in ShapeOf(a).edges;
        EdgeCovered(a, x);
      }
    }
  }

  /** A half-edge has a triangle, and its mirror has one, exactly when the shape covers its two sides. */
  lemma EdgeCovered(a: Arena, x: EdgeId)
    requires Wf(a) && Simple(a) && x in a.mesh.edges
    ensures a.edges[x].tri.Some? <==> Covered(ShapeOf(a), SideOf(a, x))
    ensures a.edges[a.edges[x].mirror].tri.Some? <==> Covered(ShapeOf(a), (SideOf(a, x).1, SideOf(a, x).0))
  {
    MirrorSide(a, x);
    TriFreeBySig(a, x);
    TriFreeBySig(a, a.edges[x].mirror);
  }

  // ---------------------------------------------------------------------------
  // Shapes
  // ---------------------------------------------------------------------------

  /** The triangle with corners p, q, r in that order round it. */
  function Tri(p: PointId, q: PointId, r: PointId): TriSig
  {
    {(p, q), (q, r), (r, p)}
  }

  /** No two signatures of the shape run along the same directed side. */
  predicate ShapeSimple(sh: Shape)
  {
    forall s1, s2 :: s1 in sh.edges && s2 in sh.edges && s1.0 == s2.0 && s1.1 == s2.1 ==> s1 == s2
  }

  lemma SimpleShape(a: Arena)
    requires Simple(a)
    ensures ShapeSimple(ShapeOf(a))
  {
    forall s1, s2 | s1 in ShapeOf(a).edges && s2 in ShapeOf(a).edges && s1.0 == s2.0 && s1.1 == s2.1
      ensures s1 == s2
    {
      SigUnique(a, s1.0, s1.1, s1.2, s2.2);
    }
  }

  /** The constrained signatures of a shape: the segments the triangulation must keep. */
  function Constrained(sh: Shape): set<EdgeSig>
  {
    set sg | sg in sh.edges && sg.2
  }

  function WithPair(sh: Shape, s: PointId, e: PointId, c: bool): Shape
  {
    sh.(edges := sh.edges + {(s, e, c), (e, s, c)})
  }

  function WithoutPair(sh: Shape, s: PointId, e: PointId, c1: bool, c2: bool): Shape
  {
    sh.(edges := sh.edges - {(s, e, c1), (e, s, c2)})
  }

  function WithTri(sh: Shape, t: TriSig): Shape
  {
    sh.(triangles := sh.triangles + {t})
  }

  function WithoutTri(sh: Shape, t: TriSig): Shape
  {
    sh.(triangles := sh.triangles - {t})
  }

  /**
   * The apex `c` of a triangle u, w, c whose side u→w now runs through `p`
   * is joined to `p`, and the two halves of the triangle are filled.
   */
  function Fanned(sh: Shape, u: PointId, w: PointId, c: PointId, p: PointId): Shape
  {
    WithTri(WithTri(WithPair(sh, c, p, false), Tri(u, p, c)), Tri(p, w, c))
  }

  /** Triangle A, B, C replaced by the three triangles round the point `p` inside it. */
  function SplitInThree(sh: Shape, a: PointId, b: PointId, c: PointId, p: PointId): Shape
  {
    var hole := WithoutTri(sh, Tri(a, b, c));
    var spokes := WithPair(WithPair(hole, a, p, false), p, b, false);
    Fanned(WithTri(spokes, Tri(a, b, p)), a, b, c, p)
  }

  /**
   * The diagonal A–B of the quadrilateral made by triangles A, B, C and
   * B, A, D replaced by the diagonal C–D: once both triangles and the pair
   * A–B are gone, C is joined to D and the triangles A, D, C and D, B, C
   * fill the quadrilateral, as a fan from C through D would.
   */
  function Flipped(sh: Shape, a: PointId, b: PointId, c: PointId, d: PointId, kab: bool, kba: bool): Shape
  {
    Fanned(WithoutPair(Uncapped(sh, a, b, Some(c), Some(d)), a, b, kab, kba), a, b, c, d)
  }

  /** The triangles A, B, C and B, A, D, those that are present, removed. */
  function Uncapped(sh: Shape, a: PointId, b: PointId, c: Option<PointId>, d: Option<PointId>): Shape
  {
    var left := if c.Some? then WithoutTri(sh, Tri(a, b, c.value)) else sh;
    if d.Some? then WithoutTri(left, Tri(b, a, d.value)) else left
  }

  /**
   * Side A→B, with the triangle A, B, C on its left when `c` is present and
   * the triangle B, A, D on its right when `d` is present, replaced by the
   * two parts A→P and P→B with the flag of A→B, each remaining apex joined
   * to P.
   */
  function EdgeSplit(sh: Shape, a: PointId, b: PointId, kab: bool, kba: bool, p: PointId,
                     c: Option<PointId>, d: Option<PointId>): Shape
  {
    FannedOpt(FannedOpt(Parted(sh, a, b, kab, kba, p, c, d), a, b, c, p), b, a, d, p)
  }

  /** The first stage of EdgeSplit: both triangles gone, A→B replaced by A→P and P→B. */
  function Parted(sh: Shape, a: PointId, b: PointId, kab: bool, kba: bool, p: PointId,
                  c: Option<PointId>, d: Option<PointId>): Shape
  {
    WithPair(WithPair(WithoutPair(Uncapped(sh, a, b, c, d), a, b, kab, kba), a, p, kab), p, b, kab)
  }

  /** The fan from apex `c` through P across the hole on U→W, when that apex is present. */
  function FannedOpt(sh: Shape, u: PointId, w: PointId, c: Option<PointId>, p: PointId): Shape
  {
    if c.Some? then Fanned(sh, u, w, c.value, p) else sh
  }

  // ---------------------------------------------------------------------------
  // Validity of the shapes
  // ---------------------------------------------------------------------------

  lemma CoveredBy(sh: Shape, t: TriSig, sd: (PointId, PointId))
    requires t in sh.triangles && sd in t
    ensures Covered(sh, sd)
  {
  }

  /**
   * A side stays covered when every triangle covering it before either
   * survives or is one of `gone`, whose sides the new shape covers.
   */
  lemma StillCovered(sh: Shape, sh2: Shape, gone: set<TriSig>, sd: (PointId, PointId))
    requires Covered(sh, sd) && sh.triangles - gone <= sh2.triangles
    requires forall t :: t in gone && sd in t ==> Covered(sh2, sd)
    ensures Covered(sh2, sd)
  {
    var t :| t in sh.triangles && sd in t;
    if t !in gone {
      CoveredBy(sh2, t, sd);
    }
  }

  /** Splitting a triangle of a valid shape in three at a new point keeps the shape valid. */
  lemma SplitInThreeValid(sh: Shape, a: PointId, b: PointId, c: PointId, p: PointId)
    requires ShapeValid(sh) && Tri(a, b, c) in sh.triangles
    ensures ShapeValid(SplitInThree(sh, a, b, c, p))
    ensures Constrained(SplitInThree(sh, a, b, c, p)) == Constrained(sh)
    ensures SplitInThree(sh, a, b, c, p).points == sh.points
  {
    var r := SplitInThree(sh, a, b, c, p);
    var t1, t2, t3 := Tri(a, b, p), Tri(a, p, c), Tri(p, b, c);
    assert r.triangles == sh.triangles - {Tri(a, b, c)} + {t1, t2, t3};
    assert r.edges == sh.edges + {(a, p, false), (p, a, false), (p, b, false), (b, p, false), (c, p, false), (p, c, false)};
    CoveredBy(r, t1, (a, b));
    CoveredBy(r, t3, (b, c));
    CoveredBy(r, t2, (c, a));
    CoveredBy(r, t2, (a, p));
    CoveredBy(r, t1, (p, a));
    CoveredBy(r, t1, (b, p));
    CoveredBy(r, t3, (p, b));
    CoveredBy(r, t3, (c, p));
    CoveredBy(r, t2, (p, c));
    forall sg | sg in r.edges
      ensures sg.2 || (Covered(r, (sg.0, sg.1)) && Covered(r, (sg.1, sg.0)))
    {
      if sg in sh.edges && !sg.2 {
        StillCovered(sh, r, {Tri(a, b, c)}, (sg.0, sg.1));
        StillCovered(sh, r, {Tri(a, b, c)}, (sg.1, sg.0));
      }
    }
  }

  /** Splitting a triangle at a point keeps the points and adds no constrained signature. */
  lemma SplitInThreeKeeps(sh: Shape, a: PointId, b: PointId, c: PointId, p: PointId)
    ensures SplitInThree(sh, a, b, c, p).points == sh.points
    ensures Constrained(SplitInThree(sh, a, b, c, p)) == Constrained(sh)
  {
    var r := SplitInThree(sh, a, b, c, p);
    assert r.edges == sh.edges + {(a, p, false), (p, a, false), (p, b, false), (b, p, false), (c, p, false), (p, c, false)};
  }

  /**
   * Flipping the unconstrained diagonal of two triangles of a valid simple
   * shape keeps it valid.
   */
  lemma FlippedValid(sh: Shape, a: PointId, b: PointId, c: PointId, d: PointId)
    requires ShapeValid(sh) && ShapeSimple(sh)
    requires Tri(a, b, c) in sh.triangles && Tri(b, a, d) in sh.triangles
    requires (a, b, false) in sh.edges && (b, a, false) in sh.edges
    ensures ShapeValid(Flipped(sh, a, b, c, d, false, false))
  {
    var r := Flipped(sh, a, b, c, d, false, false);
    var n1, n2 := Tri(a, d, c), Tri(d, b, c);
    var gone := {Tri(a, b, c), Tri(b, a, d)};
    var added := {(c, d, false), (d, c, false)};
    assert r.triangles == sh.triangles - gone + {n1, n2};
    assert r.edges == sh.edges - {(a, b, false), (b, a, false)} + added;
    CoveredBy(r, n2, (c, d));
    CoveredBy(r, n2, (d, b));
    CoveredBy(r, n2, (b, c));
    CoveredBy(r, n1, (d, c));
    CoveredBy(r, n1, (c, a));
    CoveredBy(r, n1, (a, d));
    forall sg | sg in r.edges
      ensures sg.2 || (Covered(r, (sg.0, sg.1)) && Covered(r, (sg.1, sg.0)))
    {
      if sg !in added && !sg.2 {
        assert (sg.0, sg.1) != (a, b) && (sg.0, sg.1) != (b, a);
        StillCovered(sh, r, gone, (sg.0, sg.1));
        StillCovered(sh, r, gone, (sg.1, sg.0));
      }
    }
  }

  /**
   * A flip of an unconstrained diagonal keeps the points and the
   * constrained signatures of any shape.
   */
  lemma FlippedKeeps(sh: Shape, a: PointId, b: PointId, c: PointId, d: PointId)
    ensures Constrained(Flipped(sh, a, b, c, d, false, false)) == Constrained(sh)
    ensures Flipped(sh, a, b, c, d, false, false).points == sh.points
  {
    var r := Flipped(sh, a, b, c, d, false, false);
    assert r.edges == sh.edges - {(a, b, false), (b, a, false)} + {(c, d, false), (d, c, false)};
  }

  /** The two triangles of a fan cover the six sides they are made of. */
  lemma FanCovers(r: Shape, u: PointId, w: PointId, c: PointId, p: PointId)
    requires Tri(u, p, c) in r.triangles && Tri(p, w, c) in r.triangles
    ensures Covered(r, (u, p)) && Covered(r, (p, c)) && Covered(r, (c, u))
    ensures Covered(r, (p, w)) && Covered(r, (w, c)) && Covered(r, (c, p))
  {
    CoveredBy(r, Tri(u, p, c), (u, p));
    CoveredBy(r, Tri(u, p, c), (p, c));
    CoveredBy(r, Tri(u, p, c), (c, u));
    CoveredBy(r, Tri(p, w, c), (p, w));
    CoveredBy(r, Tri(p, w, c), (w, c));
    CoveredBy(r, Tri(p, w, c), (c, p));
  }

  /** What EdgeSplit removes and adds, as plain set operations. */
  lemma EdgeSplitSets(sh: Shape, a: PointId, b: PointId, kab: bool, kba: bool, p: PointId,
                      c: Option<PointId>, d: Option<PointId>)
    ensures var r := EdgeSplit(sh, a, b, kab, kba, p, c, d);
      && r.points == sh.points
      && r.edges == sh.edges - {(a, b, kab), (b, a, kba)} + {(a, p, kab), (p, a, kab), (p, b, kab), (b, p, kab)}
                   + (if c.Some? then {(c.value, p, false), (p, c.value, false)} else {})
                   + (if d.Some? then {(d.value, p, false), (p, d.value, false)} else {})
      && sh.triangles - ((if c.Some? then {Tri(a, b, c.value)} else {}) + (if d.Some? then {Tri(b, a, d.value)} else {}))
         <= r.triangles
      && (c.Some? ==> Tri(a, p, c.value) in r.triangles && Tri(p, b, c.value) in r.triangles)
      && (d.Some? ==> Tri(b, p, d.value) in r.triangles && Tri(p, a, d.value) in r.triangles)
  {
  }

  /**
   * Splitting a side replaces its signatures by those of its two parts,
   * which carry its flag, and joins each apex to P unconstrained: a
   * constrained side gives way to two constrained parts.
   */
  lemma EdgeSplitConstrained(sh: Shape, a: PointId, b: PointId, kab: bool, kba: bool, p: PointId,
                             c: Option<PointId>, d: Option<PointId>)
    ensures Constrained(EdgeSplit(sh, a, b, kab, kba, p, c, d))
         == Constrained(sh) - {(a, b, kab), (b, a, kba)}
            + (if kab then {(a, p, true), (p, a, true), (p, b, true), (b, p, true)} else {})
  {
    EdgeSplitSets(sh, a, b, kab, kba, p, c, d);
  }

  /**
   * Splitting a side of a valid simple shape at a new point keeps it valid,
   * provided an unconstrained side has its triangle on both sides, as
   * validity demands.
   */
  lemma EdgeSplitValid(sh: Shape, a: PointId, b: PointId, kab: bool, kba: bool, p: PointId,
                       c: Option<PointId>, d: Option<PointId>)
    requires ShapeValid(sh) && ShapeSimple(sh)
    requires (a, b, kab) in sh.edges && (b, a, kba) in sh.edges
    requires c.Some? ==> Tri(a, b, c.value) in sh.triangles
    requires d.Some? ==> Tri(b, a, d.value) in sh.triangles
    requires !kab ==> c.Some? && d.Some?
    ensures ShapeValid(EdgeSplit(sh, a, b, kab, kba, p, c, d))
    ensures EdgeSplit(sh, a, b, kab, kba, p, c, d).points == sh.points
  {
    EdgeSplitSets(sh, a, b, kab, kba, p, c, d);
    SplitValidFrom(sh, EdgeSplit(sh, a, b, kab, kba, p, c, d), a, b, kab, kba, p, c, d);
  }

  /** EdgeSplitValid for any shape `r` with what EdgeSplitSets states of the split. */
  lemma SplitValidFrom(sh: Shape, r: Shape, a: PointId, b: PointId, kab: bool, kba: bool, p: PointId,
                       c: Option<PointId>, d: Option<PointId>)
    requires ShapeValid(sh) && ShapeSimple(sh)
    requires (a, b, kab) in sh.edges && (b, a, kba) in sh.edges
    requires !kab ==> c.Some? && d.Some?
    requires r.edges == sh.edges - {(a, b, kab), (b, a, kba)} + {(a, p, kab), (p, a, kab), (p, b, kab), (b, p, kab)}
                   + (if c.Some? then {(c.value, p, false), (p, c.value, false)} else {})
                   + (if d.Some? then {(d.value, p, false), (p, d.value, false)} else {})
    requires sh.triangles - ((if c.Some? then {Tri(a, b, c.value)} else {}) + (if d.Some? then {Tri(b, a, d.value)} else {}))
             <= r.triangles
    requires c.Some? ==> Tri(a, p, c.value) in r.triangles && Tri(p, b, c.value) in r.triangles
    requires d.Some? ==> Tri(b, p, d.value) in r.triangles && Tri(p, a, d.value) in r.triangles
    ensures ShapeValid(r)
  {
    var gone := (if c.Some? then {Tri(a, b, c.value)} else {}) + (if d.Some? then {Tri(b, a, d.value)} else {});
    var parts := {(a, p, kab), (p, a, kab), (p, b, kab), (b, p, kab)};
    var spokes := (if c.Some? then {(c.value, p, false), (p, c.value, false)} else {})
                + (if d.Some? then {(d.value, p, false), (p, d.value, false)} else {});
    if c.Some? {
      FanCovers(r, a, b, c.value, p);
    }
    if d.Some? {
      FanCovers(r, b, a, d.value, p);
    }
    forall sg | sg in r.edges
      ensures sg.2 || (Covered(r, (sg.0, sg.1)) && Covered(r, (sg.1, sg.0)))
    {
      if sg.2 {
      } else if sg in parts {
        assert !kab && c.Some? && d.Some?;
      } else if sg in spokes {
      } else {
        assert (sg.0, sg.1) != (a, b) && (sg.0, sg.1) != (b, a);
        StillCovered(sh, r, gone, (sg.0, sg.1));
        StillCovered(sh, r, gone, (sg.1, sg.0));
      }
    }
  }

  // ---------------------------------------------------------------------------
  // Attached points and triangle counts
  // ---------------------------------------------------------------------------

  /** The points some signature of the shape starts at: those attached to the rest of the triangulation. */
  function Attached(sh: Shape): set<PointId>
  {
    set sg | sg in sh.edges :: sg.0
  }

  /**
   * What the shape of a well-formed simple mesh inherits from it: every side
   * of a triangle has a signature, every signature has one running the other
   * way, and no signature is a loop.
   */
  predicate SidesListed(sh: Shape)
  {
    && (forall t, sd :: t in sh.triangles && sd in t ==> HasSide(sh, sd.0, sd.1))
    && (forall sg :: sg in sh.edges ==> HasSide(sh, sg.1, sg.0) && sg.0 != sg.1)
  }

  lemma ListedSides(a: Arena)
    requires Wf(a) && Simple(a)
    ensures SidesListed(ShapeOf(a))
  {
    forall t, sd | t in ShapeOf(a).triangles && sd in t
      ensures HasSide(ShapeOf(a), sd.0, sd.1)
    {
      TriSideIsEdge(a, t, sd);
      HasEdgeBySig(a, sd.0, sd.1);
    }
    forall sg | sg in ShapeOf(a).edges
      ensures HasSide(ShapeOf(a), sg.1, sg.0) && sg.0 != sg.1
    {
      SigUnique(a, sg.0, sg.1, sg.2, sg.2);
      HasEdgeBySig(a, sg.0, sg.1);
      HasEdgeMirror(a, sg.0, sg.1);
      HasEdgeBySig(a, sg.1, sg.0);
    }
  }

  /** The corners of a triangle of such a shape are distinct and attached. */
  lemma CornersAttached(sh: Shape, a: PointId, b: PointId, c: PointId)
    requires SidesListed(sh) && Tri(a, b, c) in sh.triangles
    ensures a in Attached(sh) && b in Attached(sh) && c in Attached(sh)
    ensures a != b && b != c && c != a
  {
    var t := Tri(a, b, c);
    assert (a, b) in t && (b, c) in t && (c, a) in t;
    var k1 :| (a, b, k1) in sh.edges;
    var k2 :| (b, c, k2) in sh.edges;
    var k3 :| (c, a, k3) in sh.edges;
  }

  /** No triangle of such a shape has a side starting at a point attached to nothing. */
  lemma NoTriangleAt(sh: Shape, p: PointId, q: PointId, t: TriSig)
    requires SidesListed(sh) && Isolated(sh, p) && (p, q) in t
    ensures t !in sh.triangles
  {
    if t in sh.triangles {
      var k :| (p, q, k) in sh.edges;
    }
  }

  /** Taking `gone` out of a set of triangles and putting `added` in changes its size by the difference. */
  lemma SwapCount(ts: set<TriSig>, gone: set<TriSig>, added: set<TriSig>)
    requires gone <= ts && added !! ts
    ensures |ts - gone + added| == |ts| - |gone| + |added|
  {
    assert ts == (ts - gone) + gone;
    assert (ts - gone) !! gone;
    assert (ts - gone) !! added;
  }

  /** Splitting a triangle in three attaches exactly the new point. */
  lemma SplitInThreeAttached(sh: Shape, a: PointId, b: PointId, c: PointId, p: PointId)
    requires SidesListed(sh) && Tri(a, b, c) in sh.triangles
    ensures Attached(SplitInThree(sh, a, b, c, p)) == Attached(sh) + {p}
  {
    CornersAttached(sh, a, b, c);
    var r := SplitInThree(sh, a, b, c, p);
    assert r.edges == sh.edges + {(a, p, false), (p, a, false), (p, b, false), (b, p, false), (c, p, false), (p, c, false)};
    assert (p, a, false) in r.edges;
    forall x | x in Attached(r)
      ensures x in Attached(sh) + {p}
    {
      var sg :| sg in r.edges && sg.0 == x;
    }
    forall x | x in Attached(sh)
      ensures x in Attached(r)
    {
      var sg :| sg in sh.edges && sg.0 == x;
      assert sg in r.edges;
    }
  }

  /** Splitting a triangle in three at a point attached to nothing adds two triangles. */
  lemma SplitInThreeCount(sh: Shape, a: PointId, b: PointId, c: PointId, p: PointId)
    requires SidesListed(sh) && Tri(a, b, c) in sh.triangles && Isolated(sh, p)
    ensures |SplitInThree(sh, a, b, c, p).triangles| == |sh.triangles| + 2
  {
    CornersAttached(sh, a, b, c);
    var n1, n2, n3 := Tri(a, b, p), Tri(a, p, c), Tri(p, b, c);
    assert (p, a) in n1 && (p, a) !in n2 && (p, a) !in n3;
    assert (p, c) in n2 && (p, c) !in n3;
    NoTriangleAt(sh, p, a, n1);
    NoTriangleAt(sh, p, c, n2);
    NoTriangleAt(sh, p, b, n3);
    SwapCount(sh.triangles, {Tri(a, b, c)}, {n1, n2, n3});
    assert SplitInThree(sh, a, b, c, p).triangles == sh.triangles - {Tri(a, b, c)} + {n1, n2, n3};
  }

  /** A flip attaches and detaches nothing: the ends of the old diagonal keep their other sides. */
  lemma FlippedAttached(sh: Shape, a: PointId, b: PointId, c: PointId, d: PointId)
    requires SidesListed(sh) && Tri(a, b, c) in sh.triangles && Tri(b, a, d) in sh.triangles
    ensures Attached(Flipped(sh, a, b, c, d, false, false)) == Attached(sh)
  {
    CornersAttached(sh, a, b, c);
    CornersAttached(sh, b, a, d);
    var r := Flipped(sh, a, b, c, d, false, false);
    assert r.edges == sh.edges - {(a, b, false), (b, a, false)} + {(c, d, false), (d, c, false)};
    assert (a, d) in Tri(b, a, d) && (b, c) in Tri(a, b, c);
    var ka :| (a, d, ka) in sh.edges;
    var kb :| (b, c, kb) in sh.edges;
    assert (a, d, ka) in r.edges && (b, c, kb) in r.edges;
    forall x | x in Attached(r)
      ensures x in Attached(sh)
    {
      var sg :| sg in r.edges && sg.0 == x;
    }
    forall x | x in Attached(sh)
      ensures x in Attached(r)
    {
      var sg :| sg in sh.edges && sg.0 == x;
      if sg !in r.edges {
        assert x == a || x == b;
      }
    }
  }

  /** A flip to a diagonal the shape does not have yet keeps the number of triangles. */
  lemma FlippedCount(sh: Shape, a: PointId, b: PointId, c: PointId, d: PointId)
    requires SidesListed(sh) && Tri(a, b, c) in sh.triangles && Tri(b, a, d) in sh.triangles
    requires !HasSide(sh, c, d)
    ensures |Flipped(sh, a, b, c, d, false, false).triangles| == |sh.triangles|
  {
    CornersAttached(sh, a, b, c);
    CornersAttached(sh, b, a, d);
    var n1, n2 := Tri(a, d, c), Tri(d, b, c);
    assert (a, b) in Tri(a, b, c) && (a, b) !in Tri(b, a, d);
    assert (a, d) in n1 && (a, d) !in n2;
    assert (d, c) in n1 && (c, d) in n2;
    if !HasSide(sh, d, c) {
      NoSideNoTriangle(sh, d, c, n1);
    } else {
      var k :| (d, c, k) in sh.edges;
    }
    NoSideNoTriangle(sh, c, d, n2);
    SwapCount(sh.triangles, {Tri(a, b, c), Tri(b, a, d)}, {n1, n2});
    assert Flipped(sh, a, b, c, d, false, false).triangles
        == sh.triangles - {Tri(a, b, c), Tri(b, a, d)} + {n1, n2};
  }

  /** A triangle running along a side the shape does not have is not one of its triangles. */
  lemma NoSideNoTriangle(sh: Shape, s: PointId, e: PointId, t: TriSig)
    requires SidesListed(sh) && !HasSide(sh, s, e) && (s, e) in t
    ensures t !in sh.triangles
  {
  }

  /** Splitting an edge attaches exactly the new point. */
  lemma EdgeSplitAttached(sh: Shape, a: PointId, b: PointId, kab: bool, kba: bool, p: PointId,
                          c: Option<PointId>, d: Option<PointId>)
    requires SidesListed(sh) && (a, b, kab) in sh.edges && (b, a, kba) in sh.edges
    requires c.Some? ==> Tri(a, b, c.value) in sh.triangles
    requires d.Some? ==> Tri(b, a, d.value) in sh.triangles
    ensures Attached(EdgeSplit(sh, a, b, kab, kba, p, c, d)) == Attached(sh) + {p}
  {
    EdgeSplitSets(sh, a, b, kab, kba, p, c, d);
    AttachedFrom(sh, EdgeSplit(sh, a, b, kab, kba, p, c, d), a, b, kab, kba, p, c, d);
  }

  /** EdgeSplitAttached for any shape `r` with the signatures EdgeSplitSets gives the split. */
  lemma AttachedFrom(sh: Shape, r: Shape, a: PointId, b: PointId, kab: bool, kba: bool, p: PointId,
                     c: Option<PointId>, d: Option<PointId>)
    requires SidesListed(sh) && (a, b, kab) in sh.edges && (b, a, kba) in sh.edges
    requires c.Some? ==> Tri(a, b, c.value) in sh.triangles
    requires d.Some? ==> Tri(b, a, d.value) in sh.triangles
    requires r.edges == sh.edges - {(a, b, kab), (b, a, kba)} + {(a, p, kab), (p, a, kab), (p, b, kab), (b, p, kab)}
                   + (if c.Some? then {(c.value, p, false), (p, c.value, false)} else {})
                   + (if d.Some? then {(d.value, p, false), (p, d.value, false)} else {})
    ensures Attached(r) == Attached(sh) + {p}
  {
    if c.Some? {
      CornersAttached(sh, a, b, c.value);
    }
    if d.Some? {
      CornersAttached(sh, b, a, d.value);
    }
    assert (a, p, kab) in r.edges && (p, a, kab) in r.edges && (b, p, kab) in r.edges;
    forall x | x in Attached(r)
      ensures x in Attached(sh) + {p}
    {
      var sg :| sg in r.edges && sg.0 == x;
    }
    forall x | x in Attached(sh)
      ensures x in Attached(r)
    {
      var sg :| sg in sh.edges && sg.0 == x;
      if sg !in r.edges {
        assert x == a || x == b;
      }
    }
  }

  /** The triangles on either side of A→B, those that are present. */
  function Caps(a: PointId, b: PointId, c: Option<PointId>, d: Option<PointId>): set<TriSig>
  {
    (if c.Some? then {Tri(a, b, c.value)} else {}) + (if d.Some? then {Tri(b, a, d.value)} else {})
  }

  /** The halves of those triangles once A→B runs through P. */
  function Halves(a: PointId, b: PointId, p: PointId, c: Option<PointId>, d: Option<PointId>): set<TriSig>
  {
    (if c.Some? then {Tri(a, p, c.value), Tri(p, b, c.value)} else {})
    + (if d.Some? then {Tri(b, p, d.value), Tri(p, a, d.value)} else {})
  }

  /** What EdgeSplit does to the triangles: the caps of the side go, their halves come. */
  lemma EdgeSplitTriangles(sh: Shape, a: PointId, b: PointId, kab: bool, kba: bool, p: PointId,
                           c: Option<PointId>, d: Option<PointId>)
    ensures EdgeSplit(sh, a, b, kab, kba, p, c, d).triangles == sh.triangles - Caps(a, b, c, d) + Halves(a, b, p, c, d)
  {
    if c.Some? && d.Some? {
    } else if c.Some? {
    } else if d.Some? {
    } else {
    }
  }

  /**
   * Splitting an edge at a point attached to nothing adds one triangle for
   * each side of the edge that had one, when the two apexes differ.
   */
  lemma EdgeSplitCount(sh: Shape, a: PointId, b: PointId, kab: bool, kba: bool, p: PointId,
                       c: Option<PointId>, d: Option<PointId>)
    requires SidesListed(sh) && (a, b, kab) in sh.edges && Isolated(sh, p)
    requires c.Some? ==> Tri(a, b, c.value) in sh.triangles
    requires d.Some? ==> Tri(b, a, d.value) in sh.triangles
    requires c.Some? && d.Some? ==> c.value != d.value
    ensures |EdgeSplit(sh, a, b, kab, kba, p, c, d).triangles|
         == |sh.triangles| + (if c.Some? then 1 else 0) + (if d.Some? then 1 else 0)
  {
    EdgeSplitTriangles(sh, a, b, kab, kba, p, c, d);
    CapsCount(sh, a, b, kab, p, c, d);
    SwapCount(sh.triangles, Caps(a, b, c, d), Halves(a, b, p, c, d));
  }

  /** The sizes of Caps and Halves, and that the halves are new. */
  lemma CapsCount(sh: Shape, a: PointId, b: PointId, kab: bool, p: PointId, c: Option<PointId>, d: Option<PointId>)
    requires SidesListed(sh) && (a, b, kab) in sh.edges && Isolated(sh, p)
    requires c.Some? ==> Tri(a, b, c.value) in sh.triangles
    requires d.Some? ==> Tri(b, a, d.value) in sh.triangles
    requires c.Some? && d.Some? ==> c.value != d.value
    ensures Caps(a, b, c, d) <= sh.triangles && Halves(a, b, p, c, d) !! sh.triangles
    ensures |Halves(a, b, p, c, d)| - |Caps(a, b, c, d)| == (if c.Some? then 1 else 0) + (if d.Some? then 1 else 0)
  {
    if c.Some? && d.Some? {
      BothHalves(sh, a, b, p, c.value, d.value);
      assert Caps(a, b, c, d) == {Tri(a, b, c.value), Tri(b, a, d.value)};
      assert Halves(a, b, p, c, d) == {Tri(a, p, c.value), Tri(p, b, c.value)} + {Tri(b, p, d.value), Tri(p, a, d.value)};
    } else if c.Some? {
      HalvesNew(sh, a, b, p, c.value);
      assert Caps(a, b, c, d) == {Tri(a, b, c.value)};
      assert Halves(a, b, p, c, d) == {Tri(a, p, c.value), Tri(p, b, c.value)};
    } else if d.Some? {
      HalvesNew(sh, b, a, p, d.value);
      assert Caps(a, b, c, d) == {Tri(b, a, d.value)};
      assert Halves(a, b, p, c, d) == {Tri(b, p, d.value), Tri(p, a, d.value)};
    } else {
      assert Caps(a, b, c, d) == {} && Halves(a, b, p, c, d) == {};
    }
  }

  /** With both apexes present and distinct, the two caps and the four halves are all distinct. */
  lemma BothHalves(sh: Shape, a: PointId, b: PointId, p: PointId, c: PointId, d: PointId)
    requires SidesListed(sh) && Isolated(sh, p) && c != d
    requires Tri(a, b, c) in sh.triangles && Tri(b, a, d) in sh.triangles
    ensures {Tri(a, b, c), Tri(b, a, d)} <= sh.triangles
    ensures ({Tri(a, p, c), Tri(p, b, c)} + {Tri(b, p, d), Tri(p, a, d)}) !! sh.triangles
    ensures |{Tri(a, b, c), Tri(b, a, d)}| == 2
    ensures |{Tri(a, p, c), Tri(p, b, c)} + {Tri(b, p, d), Tri(p, a, d)}| == 4
  {
    HalvesNew(sh, a, b, p, c);
    HalvesNew(sh, b, a, p, d);
    assert (a, b) in Tri(a, b, c) && (a, b) !in Tri(b, a, d);
    assert (p, c) in Tri(a, p, c) && (p, c) !in Tri(b, p, d) && (p, c) !in Tri(p, a, d);
    assert (p, b) in Tri(p, b, c) && (p, b) !in Tri(b, p, d) && (p, b) !in Tri(p, a, d);
    var left, right := {Tri(a, p, c), Tri(p, b, c)}, {Tri(b, p, d), Tri(p, a, d)};
    assert left !! right;
    assert |left + right| == |left| + |right|;
  }

  /** The two halves of a triangle U, W, C split on U→W at a point attached to nothing are distinct and new. */
  lemma HalvesNew(sh: Shape, u: PointId, w: PointId, p: PointId, c: PointId)
    requires SidesListed(sh) && Tri(u, w, c) in sh.triangles && Isolated(sh, p)
    ensures Tri(u, p, c) !in sh.triangles && Tri(p, w, c) !in sh.triangles
    ensures Tri(u, p, c) != Tri(p, w, c) && u != w && w != c && c != u && p != u && p != w && p != c
  {
    CornersAttached(sh, u, w, c);
    assert (p, c) in Tri(u, p, c) && (p, c) !in Tri(p, w, c);
    NoTriangleAt(sh, p, c, Tri(u, p, c));
    NoTriangleAt(sh, p, w, Tri(p, w, c));
  }

  // ---------------------------------------------------------------------------
  // Building blocks on the mesh
  // ---------------------------------------------------------------------------

  /** Both ends of a mesh half-edge are mesh points. */
  lemma SideEnds(a: Arena, x: EdgeId)
    requires Wf(a) && x in a.mesh.edges
    ensures SideOf(a, x).0 in a.mesh.points && SideOf(a, x).1 in a.mesh.points
    ensures SideOf(a, x).0 in a.points && SideOf(a, x).1 in a.points
  {
    MirrorSide(a, x);
  }

  /** In a simple mesh no half-edge is a loop. */
  lemma NoLoop(a: Arena, x: EdgeId)
    requires Simple(a) && x in a.mesh.edges
    ensures SideOf(a, x).0 != SideOf(a, x).1
  {
  }

  /** A side the shape leaves uncovered stays so when a triangle not running along it is added. */
  lemma StillUncovered(sh: Shape, t: TriSig, sd: (PointId, PointId))
    requires !Covered(sh, sd) && sd !in t
    ensures !Covered(WithTri(sh, t), sd)
  {
  }

  /** Coverage reads only the triangles of a shape. */
  lemma SameTrianglesCovered(sh1: Shape, sh2: Shape, sd: (PointId, PointId))
    requires sh1.triangles == sh2.triangles
    ensures Covered(sh1, sd) == Covered(sh2, sd)
  {
  }

  /** A side with no signature in a well-formed mesh's shape, in either direction, is covered by no triangle. */
  lemma UnlinkedUncovered(a: Arena, s: PointId, e: PointId)
    requires Wf(a) && !HasSide(ShapeOf(a), s, e)
    ensures !Covered(ShapeOf(a), (s, e)) && !Covered(ShapeOf(a), (e, s))
  {
    HasEdgeBySig(a, s, e);
    HasEdgeMirror(a, s, e);
    if Covered(ShapeOf(a), (s, e)) {
      CoveredHasEdge(a, (s, e));
    }
    if Covered(ShapeOf(a), (e, s)) {
      CoveredHasEdge(a, (e, s));
    }
  }

  /**
   * The hole u→w→c around a new point p on its side u→w, ready for a fan:
   * `e1` runs u→p, `e2` p→w, `wc` w→c and `cu` c→u, no triangle runs along
   * any of them, and c is not yet linked to p.
   */
  predicate FanReady(a: Arena, u: PointId, p: PointId, w: PointId, c: PointId,
                     e1: EdgeId, e2: EdgeId, wc: EdgeId, cu: EdgeId)
  {
    && Wf(a) && Simple(a)
    && e1 in a.mesh.edges && e2 in a.mesh.edges && wc in a.mesh.edges && cu in a.mesh.edges
    && SideOf(a, e1) == (u, p) && SideOf(a, e2) == (p, w) && SideOf(a, wc) == (w, c) && SideOf(a, cu) == (c, u)
    && c != p && !HasSide(ShapeOf(a), c, p)
    && !Covered(ShapeOf(a), (u, p)) && !Covered(ShapeOf(a), (p, w))
    && !Covered(ShapeOf(a), (w, c)) && !Covered(ShapeOf(a), (c, u))
  }

  /**
   * After the link c→p (`z`, mirror `mz`) of a fan: u→p, p→c, c→u are
   * ready to be filled, and so, once they are, are p→w, w→c, c→p.
   */
  predicate FanLinked(a: Arena, u: PointId, p: PointId, w: PointId, c: PointId,
                      e1: EdgeId, mz: EdgeId, cu: EdgeId, e2: EdgeId, wc: EdgeId, z: EdgeId)
  {
    && Fillable(a, e1, mz, cu) && FreeChain(a, e1, mz, cu)
    && e2 in a.mesh.edges && wc in a.mesh.edges && z in a.mesh.edges
    && SideOf(a, e1) == (u, p) && SideOf(a, mz) == (p, c) && SideOf(a, cu) == (c, u)
    && SideOf(a, e2) == (p, w) && SideOf(a, wc) == (w, c) && SideOf(a, z) == (c, p)
    && u != p && p != w && w != c && c != u && c != p
    && !Covered(ShapeOf(a), (p, w)) && !Covered(ShapeOf(a), (w, c)) && !Covered(ShapeOf(a), (c, p))
  }

  /** The first triangle of a fan leaves the sides of the second uncovered. */
  lemma FanApart(sh: Shape, u: PointId, p: PointId, w: PointId, c: PointId)
    requires u != p && p != w && w != c && c != u && c != p
    requires !Covered(sh, (p, w)) && !Covered(sh, (w, c)) && !Covered(sh, (c, p))
    ensures !Covered(WithTri(sh, Tri(u, p, c)), (p, w)) && !Covered(WithTri(sh, Tri(u, p, c)), (w, c))
    ensures !Covered(WithTri(sh, Tri(u, p, c)), (c, p))
  {
    StillUncovered(sh, Tri(u, p, c), (p, w));
    StillUncovered(sh, Tri(u, p, c), (w, c));
    StillUncovered(sh, Tri(u, p, c), (c, p));
  }

  lemma FanFirst(a: Arena, u: PointId, p: PointId, w: PointId, c: PointId,
                 e1: EdgeId, e2: EdgeId, wc: EdgeId, cu: EdgeId)
    requires FanReady(a, u, p, w, c, e1, e2, wc, cu)
    ensures c in a.points && p in a.points
    ensures var (a1, z) := Join(a, c, p, false);
      FanLinked(a1, u, p, w, c, e1, a1.edges[z].mirror, cu, e2, wc, z)
  {
    SideEnds(a, e1);
    SideEnds(a, wc);
    NoLoop(a, e1);
    NoLoop(a, e2);
    NoLoop(a, wc);
    NoLoop(a, cu);
    UnlinkedUncovered(a, c, p);
    Joined(a, c, p, false);
    var (a1, z) := Join(a, c, p, false);
    SameLinksSide(a, a1, e1);
    SameLinksSide(a, a1, e2);
    SameLinksSide(a, a1, wc);
    SameLinksSide(a, a1, cu);
    ghost var sh0, sh1 := ShapeOf(a), ShapeOf(a1);
    SameTrianglesCovered(sh0, sh1, (u, p));
    SameTrianglesCovered(sh0, sh1, (p, w));
    SameTrianglesCovered(sh0, sh1, (w, c));
    SameTrianglesCovered(sh0, sh1, (c, u));
    SameTrianglesCovered(sh0, sh1, (c, p));
    SameTrianglesCovered(sh0, sh1, (p, c));
    Fill(a1, e1, a1.edges[z].mirror, cu);
  }

  /** What Join changes, in the terms the CDT operations chain. */
  lemma JoinFrame(a: Arena, s: PointId, e: PointId, c: bool)
    requires Linkable(a, s, e)
    ensures var (b, z) := Join(a, s, e, c);
      && Wf(b) && Simple(b) && SameLinks(a, b) && RefsKept(a, b)
      && ShapeOf(b) == WithPair(ShapeOf(a), s, e, c)
      && z !in a.edges && b.edges[z].mirror !in a.edges
      && b.mesh.edges == a.mesh.edges + {z, b.edges[z].mirror}
      && SideOf(b, z) == (s, e) && SideOf(b, b.edges[z].mirror) == (e, s)
  {
    Joined(a, s, e, c);
  }

  /** What Fill changes, in the terms the CDT operations chain. */
  lemma FillFrame(a: Arena, ab: EdgeId, bc: EdgeId, ca: EdgeId)
    requires Fillable(a, ab, bc, ca)
    ensures FreeChain(a, ab, bc, ca)
    ensures var b := NewTriangle(a, ab, bc, ca).0;
      && Wf(b) && Simple(b) && SameLinks(a, b) && RefsKept(a, b)
      && ShapeOf(b) == WithTri(ShapeOf(a), {SideOf(a, ab), SideOf(a, bc), SideOf(a, ca)})
      && b.mesh.edges == a.mesh.edges && SideOf(b, ca) == SideOf(a, ca)
  {
    Fill(a, ab, bc, ca);
    SameLinksSide(a, NewTriangle(a, ab, bc, ca).0, ca);
  }

  /** What Clear changes, in the terms the CDT operations chain. */
  lemma ClearFrame(a: Arena, t: TriId)
    requires Wf(a) && Simple(a) && t in a.mesh.triangles
    ensures var b := RemoveTriangle(a, t);
      && Wf(b) && Simple(b) && SameLinks(a, b) && RefsKept(a, b)
      && ShapeOf(b) == WithoutTri(ShapeOf(a), TriSigOf(a, t))
      && b.mesh.edges == a.mesh.edges
  {
    Clear(a, t);
  }

  lemma FanSecond(a: Arena, u: PointId, p: PointId, w: PointId, c: PointId,
                  e1: EdgeId, mz: EdgeId, cu: EdgeId, e2: EdgeId, wc: EdgeId, z: EdgeId)
    requires FanLinked(a, u, p, w, c, e1, mz, cu, e2, wc, z)
    ensures var b := NewTriangle(a, e1, mz, cu).0;
      && ShapeOf(b) == WithTri(ShapeOf(a), Tri(u, p, c))
      && Fillable(b, e2, wc, z)
      && SideOf(b, e2) == (p, w) && SideOf(b, wc) == (w, c) && SideOf(b, z) == (c, p)
      && SameLinks(a, b) && RefsKept(a, b) && b.mesh.edges == a.mesh.edges
  {
    FanApart(ShapeOf(a), u, p, w, c);
    Fill(a, e1, mz, cu);
    var b := NewTriangle(a, e1, mz, cu).0;
    SameLinksSide(a, b, e2);
    SameLinksSide(a, b, wc);
    SameLinksSide(a, b, z);
  }

  /**
   * Joins the apex c of a hole u→w→c to the new point p on its side u→w by
   * a new unconstrained pair, and fills the triangles u, p, c and p, w, c.
   */
  method Fan(a: Arena, u: PointId, p: PointId, w: PointId, c: PointId,
             e1: EdgeId, e2: EdgeId, wc: EdgeId, cu: EdgeId) returns (b: Arena, z: EdgeId)
    requires FanReady(a, u, p, w, c, e1, e2, wc, cu)
    ensures Wf(b) && Simple(b) && SameLinks(a, b) && RefsKept(a, b)
    ensures ShapeOf(b) == Fanned(ShapeOf(a), u, w, c, p)
    ensures z !in a.edges && z in b.mesh.edges && b.edges[z].mirror !in a.edges
    ensures b.mesh.edges == a.mesh.edges + {z, b.edges[z].mirror}
    ensures SideOf(b, z) == (c, p)
  {
    FanFirst(a, u, p, w, c, e1, e2, wc, cu);
    JoinFrame(a, c, p, false);
    var a1, z1 := Join(a, c, p, false).0, Join(a, c, p, false).1;
    var mz := a1.edges[z1].mirror;
    FanSecond(a1, u, p, w, c, e1, mz, cu, e2, wc, z1);
    var a2 := NewTriangle(a1, e1, mz, cu).0;
    FillFrame(a2, e2, wc, z1);
    b := NewTriangle(a2, e2, wc, z1).0;
    z := z1;
    SameLinksTrans(a, a1, a2);
    SameLinksTrans(a, a2, b);
    RefsKeptTrans(a, a1, a2);
    RefsKeptTrans(a, a2, b);
  }


  // ---------------------------------------------------------------------------
  // Splitting a triangle in three
  // ---------------------------------------------------------------------------

  /** The corners A, B, C of a triangle: the starts of its sides AB, BC, CA. */
  function TriCorners(a: Arena, t: TriId): (PointId, PointId, PointId)
    requires t in a.tris
  {
    (SideOf(a, a.tris[t].ab).0, SideOf(a, a.tris[t].bc).0, SideOf(a, a.tris[t].ca).0)
  }

  /** A mesh triangle's sides run round its three distinct corners. */
  lemma TriangleSides(a: Arena, t: TriId)
    requires Wf(a) && Simple(a) && t in a.mesh.triangles
    ensures var tr := a.tris[t];
      && tr.ab in a.mesh.edges && tr.bc in a.mesh.edges && tr.ca in a.mesh.edges
      && SideOf(a, tr.ab) == (TriCorners(a, t).0, TriCorners(a, t).1)
      && SideOf(a, tr.bc) == (TriCorners(a, t).1, TriCorners(a, t).2)
      && SideOf(a, tr.ca) == (TriCorners(a, t).2, TriCorners(a, t).0)
      && TriSigOf(a, t) == Tri(TriCorners(a, t).0, TriCorners(a, t).1, TriCorners(a, t).2)
  {
    assert TriangleWf(a, t);
  }

  /** A point no edge touches is none of the ends of a mesh half-edge. */
  lemma IsolatedApart(a: Arena, p: PointId, x: EdgeId)
    requires Isolated(ShapeOf(a), p) && x in a.mesh.edges
    ensures SideOf(a, x).0 != p && SideOf(a, x).1 != p
  {
    assert Sig(a, x) in ShapeOf(a).edges;
  }

  /**
   * Triangle A, B, C with sides `ab`, `bc`, `ca` removed, and the point P,
   * linked to nothing, about to be joined to its corners.
   */
  predicate ThreeOpened(a: Arena, pa: PointId, pb: PointId, pc: PointId, p: PointId,
                       ab: EdgeId, bc: EdgeId, ca: EdgeId)
  {
    && Wf(a) && Simple(a)
    && ab in a.mesh.edges && bc in a.mesh.edges && ca in a.mesh.edges
    && SideOf(a, ab) == (pa, pb) && SideOf(a, bc) == (pb, pc) && SideOf(a, ca) == (pc, pa)
    && pa != pb && pb != pc && pc != pa && p != pa && p != pb && p != pc
    && pa in a.mesh.points && pb in a.mesh.points && p in a.mesh.points && Isolated(ShapeOf(a), p)
    && !Covered(ShapeOf(a), (pa, pb)) && !Covered(ShapeOf(a), (pb, pc)) && !Covered(ShapeOf(a), (pc, pa))
  }

  /** Removing the triangle opens the hole the three spokes go into. */
  lemma ThreeOpen(a: Arena, t: TriId, p: PointId)
    requires Wf(a) && Simple(a) && t in a.mesh.triangles && p in a.mesh.points && Isolated(ShapeOf(a), p)
    ensures var (pa, pb, pc) := TriCorners(a, t);
      && TriSigOf(a, t) == Tri(pa, pb, pc)
      && ThreeOpened(RemoveTriangle(a, t), pa, pb, pc, p, a.tris[t].ab, a.tris[t].bc, a.tris[t].ca)
  {
    var tr := a.tris[t];
    TriangleSides(a, t);
    IsolatedApart(a, p, tr.ab);
    IsolatedApart(a, p, tr.bc);
    SideEnds(a, tr.ab);
    ClearUncovers(a, t);
    ClearFrame(a, t);
    var a1 := RemoveTriangle(a, t);
    SameLinksSide(a, a1, tr.ab);
    SameLinksSide(a, a1, tr.bc);
    SameLinksSide(a, a1, tr.ca);
  }

  /** The hole after the spoke A→P (`e1`, mirror `me1`). */
  predicate ThreeSpoked(a: Arena, pa: PointId, pb: PointId, pc: PointId, p: PointId,
                        ab: EdgeId, bc: EdgeId, ca: EdgeId, e1: EdgeId, me1: EdgeId)
  {
    && Wf(a) && Simple(a)
    && ab in a.mesh.edges && bc in a.mesh.edges && ca in a.mesh.edges && e1 in a.mesh.edges && me1 in a.mesh.edges
    && SideOf(a, ab) == (pa, pb) && SideOf(a, bc) == (pb, pc) && SideOf(a, ca) == (pc, pa)
    && SideOf(a, e1) == (pa, p) && SideOf(a, me1) == (p, pa)
    && pa != pb && pb != pc && pc != pa && p != pa && p != pb && p != pc
    && pb in a.mesh.points && p in a.mesh.points
    && !HasSide(ShapeOf(a), p, pb) && !HasSide(ShapeOf(a), pc, p)
    && !Covered(ShapeOf(a), (pa, pb)) && !Covered(ShapeOf(a), (pb, pc)) && !Covered(ShapeOf(a), (pc, pa))
    && !Covered(ShapeOf(a), (pa, p)) && !Covered(ShapeOf(a), (p, pa))
  }

  /** A point no edge touches has no side to any other point. */
  lemma IsolatedNoSide(sh: Shape, p: PointId, q: PointId)
    requires Isolated(sh, p)
    ensures !HasSide(sh, p, q) && !HasSide(sh, q, p)
  {
    if (p, q, true) in sh.edges || (p, q, false) in sh.edges || (q, p, true) in sh.edges || (q, p, false) in sh.edges {
      assert false;
    }
  }

  /** A new pair between s and e adds no side between two points of which one is neither. */
  lemma PairNoSide(sh: Shape, s: PointId, e: PointId, c: bool, x: PointId, y: PointId)
    requires !HasSide(sh, x, y) && (x != s || y != e) && (x != e || y != s)
    ensures !HasSide(WithPair(sh, s, e, c), x, y)
  {
  }

  lemma ThreeSpokeA(a: Arena, pa: PointId, pb: PointId, pc: PointId, p: PointId,
                    ab: EdgeId, bc: EdgeId, ca: EdgeId)
    requires ThreeOpened(a, pa, pb, pc, p, ab, bc, ca)
    ensures Linkable(a, pa, p)
    ensures var (b, z) := Join(a, pa, p, false);
      ThreeSpoked(b, pa, pb, pc, p, ab, bc, ca, z, b.edges[z].mirror)
  {
    ghost var sh := ShapeOf(a);
    IsolatedNoSide(sh, p, pa);
    IsolatedNoSide(sh, p, pb);
    IsolatedNoSide(sh, p, pc);
    UnlinkedUncovered(a, pa, p);
    JoinFrame(a, pa, p, false);
    var (b, z) := Join(a, pa, p, false);
    PairNoSide(sh, pa, p, false, p, pb);
    PairNoSide(sh, pa, p, false, pc, p);
    SameTrianglesCovered(sh, ShapeOf(b), (pa, pb));
    SameTrianglesCovered(sh, ShapeOf(b), (pb, pc));
    SameTrianglesCovered(sh, ShapeOf(b), (pc, pa));
    SameTrianglesCovered(sh, ShapeOf(b), (pa, p));
    SameTrianglesCovered(sh, ShapeOf(b), (p, pa));
    SameLinksSide(a, b, ab);
    SameLinksSide(a, b, bc);
    SameLinksSide(a, b, ca);
  }

  /** The hole after the spoke P→B (`e2`, mirror `me2`): triangle A, B, P is ready to fill. */
  predicate ThreeClosed(a: Arena, pa: PointId, pb: PointId, pc: PointId, p: PointId,
                        ab: EdgeId, bc: EdgeId, ca: EdgeId, e1: EdgeId, me1: EdgeId, e2: EdgeId, me2: EdgeId)
  {
    && Fillable(a, ab, me2, me1)
    && bc in a.mesh.edges && ca in a.mesh.edges && e1 in a.mesh.edges && e2 in a.mesh.edges
    && SideOf(a, ab) == (pa, pb) && SideOf(a, me2) == (pb, p) && SideOf(a, me1) == (p, pa)
    && SideOf(a, bc) == (pb, pc) && SideOf(a, ca) == (pc, pa) && SideOf(a, e1) == (pa, p) && SideOf(a, e2) == (p, pb)
    && pa != pb && pb != pc && pc != pa && p != pa && p != pb && p != pc
    && !HasSide(ShapeOf(a), pc, p)
    && !Covered(ShapeOf(a), (pb, pc)) && !Covered(ShapeOf(a), (pc, pa))
    && !Covered(ShapeOf(a), (pa, p)) && !Covered(ShapeOf(a), (p, pb))
  }

  lemma ThreeSpokeB(a: Arena, pa: PointId, pb: PointId, pc: PointId, p: PointId,
                    ab: EdgeId, bc: EdgeId, ca: EdgeId, e1: EdgeId, me1: EdgeId)
    requires ThreeSpoked(a, pa, pb, pc, p, ab, bc, ca, e1, me1)
    ensures Linkable(a, p, pb)
    ensures var (b, z) := Join(a, p, pb, false);
      ThreeClosed(b, pa, pb, pc, p, ab, bc, ca, e1, me1, z, b.edges[z].mirror)
  {
    ghost var sh := ShapeOf(a);
    UnlinkedUncovered(a, p, pb);
    JoinFrame(a, p, pb, false);
    var (b, z) := Join(a, p, pb, false);
    PairNoSide(sh, p, pb, false, pc, p);
    SameTrianglesCovered(sh, ShapeOf(b), (pa, pb));
    SameTrianglesCovered(sh, ShapeOf(b), (pb, pc));
    SameTrianglesCovered(sh, ShapeOf(b), (pc, pa));
    SameTrianglesCovered(sh, ShapeOf(b), (pa, p));
    SameTrianglesCovered(sh, ShapeOf(b), (p, pa));
    SameTrianglesCovered(sh, ShapeOf(b), (p, pb));
    SameTrianglesCovered(sh, ShapeOf(b), (pb, p));
    SameLinksSide(a, b, ab);
    SameLinksSide(a, b, bc);
    SameLinksSide(a, b, ca);
    SameLinksSide(a, b, e1);
    SameLinksSide(a, b, me1);
  }

  /** Triangle A, B, P leaves the other sides of the hole round P uncovered. */
  lemma ThreeApart(sh: Shape, pa: PointId, pb: PointId, pc: PointId, p: PointId)
    requires pa != pb && pb != pc && pc != pa && p != pa && p != pb && p != pc
    requires !Covered(sh, (pb, pc)) && !Covered(sh, (pc, pa)) && !Covered(sh, (pa, p)) && !Covered(sh, (p, pb))
    ensures !Covered(WithTri(sh, Tri(pa, pb, p)), (pb, pc)) && !Covered(WithTri(sh, Tri(pa, pb, p)), (pc, pa))
    ensures !Covered(WithTri(sh, Tri(pa, pb, p)), (pa, p)) && !Covered(WithTri(sh, Tri(pa, pb, p)), (p, pb))
  {
    StillUncovered(sh, Tri(pa, pb, p), (pb, pc));
    StillUncovered(sh, Tri(pa, pb, p), (pc, pa));
    StillUncovered(sh, Tri(pa, pb, p), (pa, p));
    StillUncovered(sh, Tri(pa, pb, p), (p, pb));
  }

  /** Filling triangle A, B, P leaves the hole B→C→A round P ready for the fan from C. */
  lemma ThreeFill(a: Arena, pa: PointId, pb: PointId, pc: PointId, p: PointId,
                  ab: EdgeId, bc: EdgeId, ca: EdgeId, e1: EdgeId, me1: EdgeId, e2: EdgeId, me2: EdgeId)
    requires ThreeClosed(a, pa, pb, pc, p, ab, bc, ca, e1, me1, e2, me2)
    ensures FreeChain(a, ab, me2, me1)
    ensures ShapeOf(NewTriangle(a, ab, me2, me1).0) == WithTri(ShapeOf(a), Tri(pa, pb, p))
    ensures FanReady(NewTriangle(a, ab, me2, me1).0, pa, p, pb, pc, e1, e2, bc, ca)
  {
    ThreeApart(ShapeOf(a), pa, pb, pc, p);
    FillFrame(a, ab, me2, me1);
    var b := NewTriangle(a, ab, me2, me1).0;
    SameLinksSide(a, b, bc);
    SameLinksSide(a, b, ca);
    SameLinksSide(a, b, e1);
    SameLinksSide(a, b, e2);
  }

  lemma SixIn(m: set<EdgeId>, x1: EdgeId, x2: EdgeId, x3: EdgeId, x4: EdgeId, x5: EdgeId, x6: EdgeId)
    requires x1 in m && x2 in m && x3 in m && x4 in m && x5 in m && x6 in m
    ensures forall i :: 0 <= i < 6 ==> [x1, x2, x3, x4, x5, x6][i] in m
  {
  }

  /** The hole of triangle A, B, C with the spokes A–P and P–B and the triangle A, B, P in it. */
  function Spoked(sh: Shape, pa: PointId, pb: PointId, pc: PointId, p: PointId): Shape
  {
    WithTri(WithPair(WithPair(WithoutTri(sh, Tri(pa, pb, pc)), pa, p, false), p, pb, false), Tri(pa, pb, p))
  }

  /**
   * The first half of SplitTriangle: triangle `t` removed, P joined to A
   * and to B, and triangle A, B, P created, leaving the hole B→C→A round P
   * ready for the fan from C.
   */
  method ThreeSpokes(a: Arena, t: TriId, p: PointId) returns (b: Arena, e1: EdgeId, e2: EdgeId)
    requires Wf(a) && Simple(a) && t in a.mesh.triangles && p in a.mesh.points && Isolated(ShapeOf(a), p)
    ensures var (pa, pb, pc) := TriCorners(a, t);
      && FanReady(b, pa, p, pb, pc, e1, e2, a.tris[t].bc, a.tris[t].ca)
      && ShapeOf(b) == Spoked(ShapeOf(a), pa, pb, pc, p)
    ensures a.tris[t].ab in b.mesh.edges && RefsKept(a, b)
  {
    var (pa, pb, pc) := TriCorners(a, t);
    var ab, bc, ca := a.tris[t].ab, a.tris[t].bc, a.tris[t].ca;
    ThreeOpen(a, t, p);
    ClearFrame(a, t);
    var a1 := RemoveTriangle(a, t);
    ThreeSpokeA(a1, pa, pb, pc, p, ab, bc, ca);
    JoinFrame(a1, pa, p, false);
    var a2;
    a2, e1 := Join(a1, pa, p, false).0, Join(a1, pa, p, false).1;
    var me1 := a2.edges[e1].mirror;
    ThreeSpokeB(a2, pa, pb, pc, p, ab, bc, ca, e1, me1);
    JoinFrame(a2, p, pb, false);
    var a3;
    a3, e2 := Join(a2, p, pb, false).0, Join(a2, p, pb, false).1;
    var me2 := a3.edges[e2].mirror;
    ThreeFill(a3, pa, pb, pc, p, ab, bc, ca, e1, me1, e2, me2);
    FillFrame(a3, ab, me2, me1);
    b := NewTriangle(a3, ab, me2, me1).0;
    RefsKeptTrans(a, a1, a2);
    RefsKeptTrans(a, a2, a3);
    RefsKeptTrans(a, a3, b);
  }

  /**
   * The topological part of p2tr_cdt_insert_point_into_triangle: triangle
   * `t` with corners A, B, C is removed, the point P (linked to nothing yet)
   * is joined to the three corners by unconstrained pairs, and the triangles
   * A, B, P, then B, C, P and C, A, P are created. The six half-edges the
   * source queues for flipping -- the three old sides and the three spokes --
   * come back in `cands`.
   */
  method SplitTriangle(a: Arena, t: TriId, p: PointId) returns (b: Arena, cands: seq<EdgeId>)
    requires Wf(a) && Simple(a) && t in a.mesh.triangles && p in a.mesh.points && Isolated(ShapeOf(a), p)
    ensures Wf(b) && Simple(b) && RefsKept(a, b)
    ensures ShapeOf(b) == SplitInThree(ShapeOf(a), TriCorners(a, t).0, TriCorners(a, t).1, TriCorners(a, t).2, p)
    ensures |cands| == 6 && forall i :: 0 <= i < |cands| ==> cands[i] in b.mesh.edges
  {
    var (pa, pb, pc) := TriCorners(a, t);
    var a4, e1, e2 := ThreeSpokes(a, t, p);
    var z;
    b, z := Fan(a4, pa, p, pb, pc, e1, e2, a.tris[t].bc, a.tris[t].ca);
    cands := [a.tris[t].ab, a.tris[t].bc, a.tris[t].ca, e1, e2, z];
    SixIn(b.mesh.edges, a.tris[t].ab, a.tris[t].bc, a.tris[t].ca, e1, e2, z);
    RefsKeptTrans(a, a4, b);
  }

  // ---------------------------------------------------------------------------
  // Splitting an edge
  // ---------------------------------------------------------------------------

  /**
   * The triangle on the left of a half-edge S→E, seen from that half-edge:
   * the triangle, its apex (the corner opposite S→E), and its two other
   * sides, E→apex (`next`) and apex→S (`prev`).
   */
  datatype Wing = Wing(t: TriId, apex: PointId, next: EdgeId, prev: EdgeId)

  function WingOf(a: Arena, x: EdgeId): Option<Wing>
    requires x in a.edges
  {
    match a.edges[x].tri
    case None => None
    case Some(t) =>
      if t !in a.tris then None
      else
        var tr := a.tris[t];
        var n := if x == tr.ab then tr.bc else if x == tr.bc then tr.ca else tr.ab;
        var q := if x == tr.ab then tr.ca else if x == tr.bc then tr.ab else tr.bc;
        Some(Wing(t, SideOf(a, n).1, n, q))
  }

  function ApexOf(w: Option<Wing>): Option<PointId>
  {
    if w.Some? then Some(w.value.apex) else None
  }

  /** A mesh half-edge's wing, when it has one, is its triangle read from that half-edge. */
  lemma WingShape(a: Arena, x: EdgeId)
    requires Wf(a) && Simple(a) && x in a.mesh.edges
    ensures WingOf(a, x).None? <==> a.edges[x].tri.None?
    ensures WingOf(a, x).Some? ==>
      var w := WingOf(a, x).value;
      var (s, e) := SideOf(a, x);
      && a.edges[x].tri == Some(w.t) && w.t in a.mesh.triangles
      && w.next in a.mesh.edges && w.prev in a.mesh.edges
      && SideOf(a, w.next) == (e, w.apex) && SideOf(a, w.prev) == (w.apex, s)
      && TriSigOf(a, w.t) == Tri(s, e, w.apex)
      && s != e && w.apex != s && w.apex != e
  {
    if a.edges[x].tri.Some? {
      assert TriangleWf(a, a.edges[x].tri.value);
      var w := WingOf(a, x).value;
      NoLoop(a, x);
      NoLoop(a, w.next);
      NoLoop(a, w.prev);
    }
  }

  /** Opposite half-edges never share a triangle. */
  lemma TriNoReverse(s: PointId, e: PointId, v: PointId, w: PointId)
    requires s != e && v != s && v != e
    ensures Tri(s, e, v) != Tri(e, s, w)
  {
    assert (e, s) in Tri(e, s, w);
  }

  /** The wings on the two sides of a half-edge have different apexes. */
  predicate ApartWings(w1: Option<Wing>, w2: Option<Wing>)
  {
    w1.Some? && w2.Some? ==> w1.value.apex != w2.value.apex
  }

  /** The sides E→apex and apex→S of a wing are mesh half-edges running that way. */
  predicate WingLinked(a: Arena, s: PointId, e: PointId, w: Option<Wing>)
  {
    w.Some? ==>
      && w.value.next in a.mesh.edges && w.value.prev in a.mesh.edges
      && SideOf(a, w.value.next) == (e, w.value.apex) && SideOf(a, w.value.prev) == (w.value.apex, s)
  }

  /** The apex of a wing is neither S, E nor P, and no triangle runs along the wing's two other sides. */
  predicate WingFree(sh: Shape, s: PointId, e: PointId, p: PointId, w: Option<Wing>)
  {
    w.Some? ==>
      && w.value.apex != s && w.value.apex != e && w.value.apex != p
      && !Covered(sh, (e, w.value.apex)) && !Covered(sh, (w.value.apex, s))
  }

  lemma WingLinkedKept(a: Arena, b: Arena, s: PointId, e: PointId, w: Option<Wing>)
    requires Wf(a) && WingLinked(a, s, e, w) && SameLinks(a, b)
    requires w.Some? ==> w.value.next in b.mesh.edges && w.value.prev in b.mesh.edges
    ensures WingLinked(b, s, e, w)
  {
    if w.Some? {
      SameLinksSide(a, b, w.value.next);
      SameLinksSide(a, b, w.value.prev);
    }
  }

  /** Removing triangles keeps a wing free. */
  lemma WingFreeFewer(sh: Shape, sh2: Shape, s: PointId, e: PointId, p: PointId, w: Option<Wing>)
    requires WingFree(sh, s, e, p, w) && sh2.triangles <= sh.triangles
    ensures WingFree(sh2, s, e, p, w)
  {
  }

  /** The arena with the triangle on the left of `y`, if there is one, removed. */
  function Uncap(a: Arena, y: EdgeId): Arena
    requires Wf(a) && y in a.mesh.edges
  {
    match a.edges[y].tri
    case None => a
    case Some(t) => RemoveTriangle(a, t)
  }

  /** What Uncap changes: the wing of `y` is open, and that of `keep`, whose triangle is another one, stays. */
  lemma UncapFrame(a: Arena, y: EdgeId, keep: EdgeId)
    requires Wf(a) && Simple(a) && y in a.mesh.edges && keep in a.mesh.edges
    requires a.edges[keep].tri.Some? ==> a.edges[keep].tri != a.edges[y].tri
    ensures var b := Uncap(a, y);
      && Wf(b) && Simple(b) && SameLinks(a, b) && RefsKept(a, b) && b.mesh.edges == a.mesh.edges
      && b.mesh.points == a.mesh.points
      && b.edges[y].tri.None? && Sig(b, y) == Sig(a, y) && b.edges[keep] == a.edges[keep]
      && WingOf(b, keep) == WingOf(a, keep)
      && ShapeOf(b) == (if WingOf(a, y).Some?
           then WithoutTri(ShapeOf(a), Tri(SideOf(a, y).0, SideOf(a, y).1, WingOf(a, y).value.apex))
           else ShapeOf(a))
      && (WingOf(a, y).Some? ==>
           && !Covered(ShapeOf(b), (SideOf(a, y).1, WingOf(a, y).value.apex))
           && !Covered(ShapeOf(b), (WingOf(a, y).value.apex, SideOf(a, y).0)))
  {
    WingShape(a, y);
    MirrorSide(a, y);
    MirrorSide(a, keep);
    if a.edges[y].tri.Some? {
      var t := a.edges[y].tri.value;
      ClearOther(a, t, keep);
      ClearOther(a, t, y);
      ClearUncovers(a, t);
      ClearFrame(a, t);
      KeepWing(a, RemoveTriangle(a, t), keep);
    }
  }

  /** Removing a triangle changes only the records of its own sides, and of those only the triangle. */
  lemma ClearOther(a: Arena, t: TriId, z: EdgeId)
    requires Wf(a) && t in a.mesh.triangles && z in a.mesh.edges
    ensures var b := RemoveTriangle(a, t);
      && (a.edges[z].tri != Some(t) ==> b.edges[z] == a.edges[z])
      && Sig(b, z) == Sig(a, z) && (a.edges[z].tri == Some(t) ==> b.edges[z].tri.None?)
  {
    assert TriangleWf(a, t);
    MirrorSide(a, z);
  }

  /** A wing reads only the links, the triangle records and its own half-edge's record. */
  lemma KeepWing(a: Arena, b: Arena, x: EdgeId)
    requires Wf(a) && x in a.mesh.edges && SameLinks(a, b) && b.tris == a.tris && b.edges[x] == a.edges[x]
    ensures WingOf(b, x) == WingOf(a, x)
  {
    if a.edges[x].tri.Some? {
      var t := a.edges[x].tri.value;
      assert TriangleWf(a, t);
      var tr := a.tris[t];
      SameLinksSide(a, b, tr.ab);
      SameLinksSide(a, b, tr.bc);
      SameLinksSide(a, b, tr.ca);
    }
  }

  /** Unlinking the pair S→E, E→S leaves the sides of a wing of it in place. */
  lemma WingAfterUnlink(a: Arena, b: Arena, s: PointId, e: PointId, x: EdgeId, mx: EdgeId, w: Option<Wing>)
    requires WingLinked(a, s, e, w) && s != e
    requires (SideOf(a, x) == (s, e) && SideOf(a, mx) == (e, s)) || (SideOf(a, x) == (e, s) && SideOf(a, mx) == (s, e))
    requires w.Some? ==> w.value.apex != s && w.value.apex != e
    requires b.edges == a.edges && b.mesh.edges == a.mesh.edges - {x, mx}
    ensures WingLinked(b, s, e, w)
  {
  }

  /**
   * The stage of SplitEdge once the half-edge pair S→E is gone together
   * with its triangles: the wings `w1` (left of S→E) and `w2` (left of
   * E→S) are open, and P, linked to nothing, is to be joined to S and E.
   */
  predicate EdgeOpened(a: Arena, s: PointId, e: PointId, p: PointId, w1: Option<Wing>, w2: Option<Wing>)
  {
    && Wf(a) && Simple(a)
    && s in a.mesh.points && e in a.mesh.points && p in a.mesh.points
    && s != e && p != s && p != e && Isolated(ShapeOf(a), p)
    && WingLinked(a, s, e, w1) && WingLinked(a, e, s, w2)
    && WingFree(ShapeOf(a), s, e, p, w1) && WingFree(ShapeOf(a), e, s, p, w2) && ApartWings(w1, w2)
  }

  /** The pair S→E (`x`) and E→S (`mx`) with no triangle on the left of `x` any more. */
  predicate LeftOpen(a: Arena, x: EdgeId, mx: EdgeId, s: PointId, e: PointId, p: PointId,
                     w1: Option<Wing>, w2: Option<Wing>)
  {
    && Wf(a) && Simple(a) && x in a.mesh.edges && mx in a.mesh.edges && a.edges[x].mirror == mx
    && SideOf(a, x) == (s, e) && SideOf(a, mx) == (e, s) && a.edges[x].tri.None? && WingOf(a, mx) == w2
    && s in a.mesh.points && e in a.mesh.points && p in a.mesh.points
    && s != e && p != s && p != e && Isolated(ShapeOf(a), p)
    && WingLinked(a, s, e, w1) && WingFree(ShapeOf(a), s, e, p, w1)
    && (w2.Some? ==> w2.value.apex != s && w2.value.apex != e && w2.value.apex != p)
    && ApartWings(w1, w2)
  }

  /** What holds of the pair S→E, E→S and its wings before anything is removed. */
  predicate Openable(a: Arena, x: EdgeId, mx: EdgeId, s: PointId, e: PointId, p: PointId,
                     w1: Option<Wing>, w2: Option<Wing>)
  {
    && Wf(a) && Simple(a) && x in a.mesh.edges && mx in a.mesh.edges && a.edges[x].mirror == mx
    && SideOf(a, x) == (s, e) && SideOf(a, mx) == (e, s) && WingOf(a, x) == w1 && WingOf(a, mx) == w2
    && s in a.mesh.points && e in a.mesh.points && p in a.mesh.points
    && s != e && p != s && p != e && Isolated(ShapeOf(a), p)
    && WingLinked(a, s, e, w1)
    && (w1.Some? ==> w1.value.apex != s && w1.value.apex != e && w1.value.apex != p)
    && (w2.Some? ==> w2.value.apex != s && w2.value.apex != e && w2.value.apex != p)
    && (a.edges[mx].tri.Some? ==> a.edges[mx].tri != a.edges[x].tri)
    && ApartWings(w1, w2)
  }

  lemma OpenFacts(a: Arena, x: EdgeId, p: PointId)
    requires Wf(a) && Simple(a) && x in a.mesh.edges && p in a.mesh.points && Isolated(ShapeOf(a), p)
    requires ApartWings(WingOf(a, x), WingOf(a, a.edges[x].mirror))
    ensures Openable(a, x, a.edges[x].mirror, SideOf(a, x).0, SideOf(a, x).1, p,
                     WingOf(a, x), WingOf(a, a.edges[x].mirror))
  {
    var mx := a.edges[x].mirror;
    var (s, e) := SideOf(a, x);
    var w1, w2 := WingOf(a, x), WingOf(a, mx);
    MirrorSide(a, x);
    WingShape(a, x);
    WingShape(a, mx);
    SideEnds(a, x);
    IsolatedApart(a, p, x);
    if w1.Some? {
      IsolatedApart(a, p, w1.value.next);
    }
    if w2.Some? {
      IsolatedApart(a, p, w2.value.next);
    }
    if w1.Some? && w2.Some? {
      TriNoReverse(s, e, w1.value.apex, w2.value.apex);
    }
  }

  lemma OpenLeft(a: Arena, x: EdgeId, mx: EdgeId, s: PointId, e: PointId, p: PointId,
                 w1: Option<Wing>, w2: Option<Wing>, k1: bool, k2: bool)
    requires Openable(a, x, mx, s, e, p, w1, w2)
    requires Sig(a, x) == (s, e, k1) && Sig(a, mx) == (e, s, k2)
    ensures LeftOpen(Uncap(a, x), x, mx, s, e, p, w1, w2)
    ensures RefsKept(a, Uncap(a, x))
    ensures Sig(Uncap(a, x), x) == (s, e, k1) && Sig(Uncap(a, x), mx) == (e, s, k2)
    ensures ShapeOf(Uncap(a, x)) == if w1.Some? then WithoutTri(ShapeOf(a), Tri(s, e, w1.value.apex)) else ShapeOf(a)
  {
    UncapFrame(a, x, mx);
    var a1 := Uncap(a, x);
    SameLinksSide(a, a1, x);
    SameLinksSide(a, a1, mx);
    WingLinkedKept(a, a1, s, e, w1);
  }

  /** The pair S→E, E→S with no triangle on either side, each wing open. */
  predicate BothOpen(a: Arena, x: EdgeId, mx: EdgeId, s: PointId, e: PointId, p: PointId,
                     w1: Option<Wing>, w2: Option<Wing>)
  {
    && Unlinkable(a, x) && a.edges[x].mirror == mx
    && SideOf(a, x) == (s, e) && SideOf(a, mx) == (e, s)
    && s in a.mesh.points && e in a.mesh.points && p in a.mesh.points
    && s != e && p != s && p != e && Isolated(ShapeOf(a), p)
    && WingLinked(a, s, e, w1) && WingLinked(a, e, s, w2)
    && WingFree(ShapeOf(a), s, e, p, w1) && WingFree(ShapeOf(a), e, s, p, w2) && ApartWings(w1, w2)
  }

  lemma OpenRight(a: Arena, x: EdgeId, mx: EdgeId, s: PointId, e: PointId, p: PointId,
                  w1: Option<Wing>, w2: Option<Wing>, sh0: Shape, k1: bool, k2: bool)
    requires LeftOpen(a, x, mx, s, e, p, w1, w2)
    requires Sig(a, x) == (s, e, k1) && Sig(a, mx) == (e, s, k2)
    requires ShapeOf(a) == if w1.Some? then WithoutTri(sh0, Tri(s, e, w1.value.apex)) else sh0
    ensures BothOpen(Uncap(a, mx), x, mx, s, e, p, w1, w2)
    ensures RefsKept(a, Uncap(a, mx))
    ensures Sig(Uncap(a, mx), x) == (s, e, k1) && Sig(Uncap(a, mx), mx) == (e, s, k2)
    ensures ShapeOf(Uncap(a, mx)) == Uncapped(sh0, s, e, ApexOf(w1), ApexOf(w2))
  {
    WingShape(a, mx);
    UncapFrame(a, mx, x);
    var b := Uncap(a, mx);
    SameLinksSide(a, b, x);
    SameLinksSide(a, b, mx);
    WingLinkedKept(a, b, s, e, w1);
    WingLinkedKept(a, b, e, s, w2);
    WingFreeFewer(ShapeOf(a), ShapeOf(b), s, e, p, w1);
    EdgeCovered(b, x);
  }

  method OpenPair(a: Arena, x: EdgeId, mx: EdgeId, s: PointId, e: PointId, p: PointId,
                  w1: Option<Wing>, w2: Option<Wing>, sh0: Shape, k1: bool, k2: bool) returns (b: Arena)
    requires BothOpen(a, x, mx, s, e, p, w1, w2)
    requires Sig(a, x) == (s, e, k1) && Sig(a, mx) == (e, s, k2)
    requires ShapeOf(a) == Uncapped(sh0, s, e, ApexOf(w1), ApexOf(w2))
    ensures EdgeOpened(b, s, e, p, w1, w2)
    ensures RefsKept(a, b)
    ensures ShapeOf(b) == WithoutPair(Uncapped(sh0, s, e, ApexOf(w1), ApexOf(w2)), s, e, k1, k2)
  {
    Unlink(a, x);
    b := RemoveEdge(a, x);
    WingAfterUnlink(a, b, s, e, x, mx, w1);
    WingAfterUnlink(a, b, e, s, x, mx, w2);
    IsolatedFewer(ShapeOf(a), ShapeOf(b), p);
    WingFreeFewer(ShapeOf(a), ShapeOf(b), s, e, p, w1);
    WingFreeFewer(ShapeOf(a), ShapeOf(b), e, s, p, w2);
  }

  /** Removing edges keeps a point isolated. */
  lemma IsolatedFewer(sh: Shape, sh2: Shape, p: PointId)
    requires Isolated(sh, p) && sh2.edges <= sh.edges
    ensures Isolated(sh2, p)
  {
  }

  /**
   * The first part of p2tr_cdt_split_edge: the triangles on both sides of
   * `x` are removed, then the pair itself.
   */
  method OpenEdge(a: Arena, x: EdgeId, p: PointId) returns (b: Arena)
    requires Wf(a) && Simple(a) && x in a.mesh.edges && p in a.mesh.points && Isolated(ShapeOf(a), p)
    requires ApartWings(WingOf(a, x), WingOf(a, a.edges[x].mirror))
    ensures EdgeOpened(b, SideOf(a, x).0, SideOf(a, x).1, p, WingOf(a, x), WingOf(a, a.edges[x].mirror))
    ensures RefsKept(a, b)
    ensures ShapeOf(b) == WithoutPair(Uncapped(ShapeOf(a), SideOf(a, x).0, SideOf(a, x).1,
                                               ApexOf(WingOf(a, x)), ApexOf(WingOf(a, a.edges[x].mirror))),
                                      SideOf(a, x).0, SideOf(a, x).1,
                                      a.edges[x].constrained, a.edges[a.edges[x].mirror].constrained)
  {
    var mx := a.edges[x].mirror;
    var s, e := SideOf(a, x).0, SideOf(a, x).1;
    var k1, k2 := a.edges[x].constrained, a.edges[mx].constrained;
    var w1, w2 := WingOf(a, x), WingOf(a, mx);
    OpenFacts(a, x, p);
    OpenLeft(a, x, mx, s, e, p, w1, w2, k1, k2);
    var a1 := Uncap(a, x);
    OpenRight(a1, x, mx, s, e, p, w1, w2, ShapeOf(a), k1, k2);
    var a2 := Uncap(a1, mx);
    b := OpenPair(a2, x, mx, s, e, p, w1, w2, ShapeOf(a), k1, k2);
    RefsKeptTrans(a, a1, a2);
    RefsKeptTrans(a, a2, b);
  }

  /** P has no side to or from the apex of a wing. */
  predicate ApexNoSide(sh: Shape, p: PointId, w: Option<Wing>)
  {
    w.Some? ==> !HasSide(sh, w.value.apex, p) && !HasSide(sh, p, w.value.apex)
  }

  /** S→P is in place, P→E can be joined, and no triangle yet touches P. */
  predicate HalfParted(a: Arena, s: PointId, e: PointId, p: PointId, w1: Option<Wing>, w2: Option<Wing>, xp: EdgeId)
  {
    && Wf(a) && Simple(a)
    && xp in a.mesh.edges && a.edges[xp].mirror in a.mesh.edges
    && SideOf(a, xp) == (s, p) && SideOf(a, a.edges[xp].mirror) == (p, s)
    && e in a.mesh.points && p in a.mesh.points
    && s != e && p != s && p != e && !HasSide(ShapeOf(a), p, e)
    && !Covered(ShapeOf(a), (s, p)) && !Covered(ShapeOf(a), (p, s))
    && !Covered(ShapeOf(a), (p, e)) && !Covered(ShapeOf(a), (e, p))
    && WingLinked(a, s, e, w1) && WingLinked(a, e, s, w2)
    && WingFree(ShapeOf(a), s, e, p, w1) && WingFree(ShapeOf(a), e, s, p, w2)
    && ApexNoSide(ShapeOf(a), p, w1) && ApexNoSide(ShapeOf(a), p, w2) && ApartWings(w1, w2)
  }

  /** Both parts S→P and P→E are in place, with the wings still open on either side. */
  predicate EdgeParted(a: Arena, s: PointId, e: PointId, p: PointId, w1: Option<Wing>, w2: Option<Wing>,
                       xp: EdgeId, pe: EdgeId)
  {
    && Wf(a) && Simple(a)
    && xp in a.mesh.edges && a.edges[xp].mirror in a.mesh.edges
    && pe in a.mesh.edges && a.edges[pe].mirror in a.mesh.edges
    && SideOf(a, xp) == (s, p) && SideOf(a, a.edges[xp].mirror) == (p, s)
    && SideOf(a, pe) == (p, e) && SideOf(a, a.edges[pe].mirror) == (e, p)
    && s != e && p != s && p != e
    && !Covered(ShapeOf(a), (s, p)) && !Covered(ShapeOf(a), (p, s))
    && !Covered(ShapeOf(a), (p, e)) && !Covered(ShapeOf(a), (e, p))
    && WingLinked(a, s, e, w1) && WingLinked(a, e, s, w2)
    && WingFree(ShapeOf(a), s, e, p, w1) && WingFree(ShapeOf(a), e, s, p, w2)
    && ApexNoSide(ShapeOf(a), p, w1) && ApexNoSide(ShapeOf(a), p, w2) && ApartWings(w1, w2)
  }

  /** A new pair S→P with S not an apex leaves the apex unlinked to P. */
  lemma ApexNoSideKept(sh: Shape, s: PointId, e: PointId, k: bool, p: PointId, w: Option<Wing>)
    requires ApexNoSide(sh, p, w) && (w.Some? ==> w.value.apex != s && w.value.apex != e)
    ensures ApexNoSide(WithPair(sh, s, e, k), p, w)
  {
    if w.Some? {
      PairNoSide(sh, s, e, k, w.value.apex, p);
      PairNoSide(sh, s, e, k, p, w.value.apex);
    }
  }

  /** An isolated point has no side to any apex. */
  lemma IsolatedApexNoSide(sh: Shape, p: PointId, w: Option<Wing>)
    requires Isolated(sh, p)
    ensures ApexNoSide(sh, p, w)
  {
    if w.Some? {
      IsolatedNoSide(sh, p, w.value.apex);
    }
  }

  /** Joining S→P, the first part of the split edge. */
  lemma PartFirst(a: Arena, s: PointId, e: PointId, p: PointId, w1: Option<Wing>, w2: Option<Wing>, k: bool)
    requires EdgeOpened(a, s, e, p, w1, w2)
    ensures Linkable(a, s, p)
    ensures var (b, z) := Join(a, s, p, k);
      && HalfParted(b, s, e, p, w1, w2, z)
      && ShapeOf(b) == WithPair(ShapeOf(a), s, p, k) && RefsKept(a, b)
  {
    ghost var sh := ShapeOf(a);
    IsolatedNoSide(sh, p, s);
    IsolatedNoSide(sh, p, e);
    UnlinkedUncovered(a, s, p);
    UnlinkedUncovered(a, p, e);
    IsolatedApexNoSide(sh, p, w1);
    IsolatedApexNoSide(sh, p, w2);
    JoinFrame(a, s, p, k);
    var (b, z) := Join(a, s, p, k);
    PairNoSide(sh, s, p, k, p, e);
    ApexNoSideKept(sh, s, p, k, p, w1);
    ApexNoSideKept(sh, s, p, k, p, w2);
    SameTrianglesCovered(sh, ShapeOf(b), (s, p));
    SameTrianglesCovered(sh, ShapeOf(b), (p, s));
    SameTrianglesCovered(sh, ShapeOf(b), (p, e));
    SameTrianglesCovered(sh, ShapeOf(b), (e, p));
    WingFreeFewer(sh, ShapeOf(b), s, e, p, w1);
    WingFreeFewer(sh, ShapeOf(b), e, s, p, w2);
    WingLinkedKept(a, b, s, e, w1);
    WingLinkedKept(a, b, e, s, w2);
  }

  /** Joining P→E, the second part of the split edge. */
  lemma PartSecond(a: Arena, s: PointId, e: PointId, p: PointId, w1: Option<Wing>, w2: Option<Wing>,
                   xp: EdgeId, k: bool)
    requires HalfParted(a, s, e, p, w1, w2, xp)
    ensures Linkable(a, p, e)
    ensures var (b, z) := Join(a, p, e, k);
      && EdgeParted(b, s, e, p, w1, w2, xp, z)
      && ShapeOf(b) == WithPair(ShapeOf(a), p, e, k) && RefsKept(a, b)
  {
    ghost var sh := ShapeOf(a);
    JoinFrame(a, p, e, k);
    var (b, z) := Join(a, p, e, k);
    ApexNoSideKept(sh, p, e, k, p, w1);
    ApexNoSideKept(sh, p, e, k, p, w2);
    SameTrianglesCovered(sh, ShapeOf(b), (s, p));
    SameTrianglesCovered(sh, ShapeOf(b), (p, s));
    SameTrianglesCovered(sh, ShapeOf(b), (p, e));
    SameTrianglesCovered(sh, ShapeOf(b), (e, p));
    WingFreeFewer(sh, ShapeOf(b), s, e, p, w1);
    WingFreeFewer(sh, ShapeOf(b), e, s, p, w2);
    WingLinkedKept(a, b, s, e, w1);
    WingLinkedKept(a, b, e, s, w2);
    SameLinksSide(a, b, xp);
    SameLinksSide(a, b, a.edges[xp].mirror);
  }

  /** The new point P is joined to both ends of the removed pair by pairs carrying the flag `k`. */
  method JoinParts(a: Arena, s: PointId, e: PointId, p: PointId, w1: Option<Wing>, w2: Option<Wing>, k: bool)
    returns (b: Arena, xp: EdgeId, pe: EdgeId)
    requires EdgeOpened(a, s, e, p, w1, w2)
    ensures EdgeParted(b, s, e, p, w1, w2, xp, pe)
    ensures ShapeOf(b) == WithPair(WithPair(ShapeOf(a), s, p, k), p, e, k)
    ensures b.edges[xp].constrained == k && b.edges[pe].constrained == k
    ensures RefsKept(a, b)
  {
    PartFirst(a, s, e, p, w1, w2, k);
    var a1;
    a1, xp := Join(a, s, p, k).0, Join(a, s, p, k).1;
    PartSecond(a1, s, e, p, w1, w2, xp, k);
    b, pe := Join(a1, p, e, k).0, Join(a1, p, e, k).1;
    RefsKeptTrans(a, a1, b);
  }

  /** With the parts in place, the hole S→P→E→V→S on the first wing is ready for the fan from V. */
  lemma LeftReady(a: Arena, s: PointId, e: PointId, p: PointId, w1: Option<Wing>, w2: Option<Wing>,
                  xp: EdgeId, pe: EdgeId)
    requires EdgeParted(a, s, e, p, w1, w2, xp, pe) && w1.Some?
    ensures FanReady(a, s, p, e, w1.value.apex, xp, pe, w1.value.next, w1.value.prev)
  {
  }

  /**
   * Fanning from V across the first wing leaves the sides of the second
   * wing's hole E→P→S→W→E uncovered and W unlinked to P.
   */
  lemma FanRightApart(sh: Shape, s: PointId, e: PointId, p: PointId, v: PointId, w: PointId)
    requires s != e && p != s && p != e && v != s && v != e && v != p && w != s && w != e && w != p && v != w
    requires !HasSide(sh, w, p)
    requires !Covered(sh, (e, p)) && !Covered(sh, (p, s)) && !Covered(sh, (s, w)) && !Covered(sh, (w, e))
    ensures !HasSide(Fanned(sh, s, e, v, p), w, p)
    ensures !Covered(Fanned(sh, s, e, v, p), (e, p)) && !Covered(Fanned(sh, s, e, v, p), (p, s))
    ensures !Covered(Fanned(sh, s, e, v, p), (s, w)) && !Covered(Fanned(sh, s, e, v, p), (w, e))
  {
    PairNoSide(sh, v, p, false, w, p);
    ghost var sh1 := WithPair(sh, v, p, false);
    ghost var sh2 := WithTri(sh1, Tri(s, p, v));
    StillUncovered(sh1, Tri(s, p, v), (e, p));
    StillUncovered(sh1, Tri(s, p, v), (p, s));
    StillUncovered(sh1, Tri(s, p, v), (s, w));
    StillUncovered(sh1, Tri(s, p, v), (w, e));
    StillUncovered(sh2, Tri(p, e, v), (e, p));
    StillUncovered(sh2, Tri(p, e, v), (p, s));
    StillUncovered(sh2, Tri(p, e, v), (s, w));
    StillUncovered(sh2, Tri(p, e, v), (w, e));
  }

  /** After the optional fan across the first wing, the second wing's hole is ready for the fan from W. */
  lemma RightReady(a: Arena, b: Arena, s: PointId, e: PointId, p: PointId, w1: Option<Wing>, w2: Option<Wing>,
                   xp: EdgeId, pe: EdgeId)
    requires EdgeParted(a, s, e, p, w1, w2, xp, pe) && w2.Some?
    requires Wf(b) && Simple(b) && SameLinks(a, b) && a.mesh.edges <= b.mesh.edges
    requires ShapeOf(b) == if w1.Some? then Fanned(ShapeOf(a), s, e, w1.value.apex, p) else ShapeOf(a)
    ensures FanReady(b, e, p, s, w2.value.apex, a.edges[pe].mirror, a.edges[xp].mirror, w2.value.next, w2.value.prev)
  {
    SameLinksSide(a, b, a.edges[pe].mirror);
    SameLinksSide(a, b, a.edges[xp].mirror);
    SameLinksSide(a, b, w2.value.next);
    SameLinksSide(a, b, w2.value.prev);
    if w1.Some? {
      FanRightApart(ShapeOf(a), s, e, p, w1.value.apex, w2.value.apex);
    }
  }

  /**
   * The triangles of p2tr_cdt_split_edge: each open wing is refilled by
   * the fan of two triangles from its apex through P.
   */
  method FanWings(a: Arena, s: PointId, e: PointId, p: PointId, w1: Option<Wing>, w2: Option<Wing>,
                  xp: EdgeId, pe: EdgeId) returns (b: Arena, z1: EdgeId, z2: EdgeId)
    requires EdgeParted(a, s, e, p, w1, w2, xp, pe)
    ensures Wf(b) && Simple(b) && SameLinks(a, b) && RefsKept(a, b)
    ensures ShapeOf(b) == FannedOpt(FannedOpt(ShapeOf(a), s, e, ApexOf(w1), p), e, s, ApexOf(w2), p)
    ensures a.mesh.edges <= b.mesh.edges
    ensures w1.Some? ==> z1 in b.mesh.edges
    ensures w2.Some? ==> z2 in b.mesh.edges
  {
    var a1 := a;
    z1, z2 := xp, pe;
    if w1.Some? {
      LeftReady(a, s, e, p, w1, w2, xp, pe);
      a1, z1 := Fan(a, s, p, e, w1.value.apex, xp, pe, w1.value.next, w1.value.prev);
    }
    b := a1;
    if w2.Some? {
      RightReady(a, a1, s, e, p, w1, w2, xp, pe);
      b, z2 := Fan(a1, e, p, s, w2.value.apex, a.edges[pe].mirror, a.edges[xp].mirror, w2.value.next, w2.value.prev);
      SameLinksTrans(a, a1, b);
      RefsKeptTrans(a, a1, b);
    }
  }

  /** The sides a wing contributes to the flip candidates: its two outer sides and the new spoke to P. */
  function WingCands(w: Option<Wing>, z: EdgeId): (r: seq<EdgeId>)
    ensures w.None? ==> r == []
    ensures w.Some? ==> r == [w.value.next, w.value.prev, z]
  {
    if w.Some? then [w.value.next, w.value.prev, z] else []
  }

  lemma WingCandsIn(m: set<EdgeId>, w1: Option<Wing>, z1: EdgeId, w2: Option<Wing>, z2: EdgeId)
    requires w1.Some? ==> w1.value.next in m && w1.value.prev in m && z1 in m
    requires w2.Some? ==> w2.value.next in m && w2.value.prev in m && z2 in m
    ensures forall i :: 0 <= i < |WingCands(w1, z1) + WingCands(w2, z2)| ==> (WingCands(w1, z1) + WingCands(w2, z2))[i] in m
  {
  }

  /** After the fans, the parts and every candidate side are mesh half-edges, the parts still running S→P→E. */
  lemma PartedCands(a: Arena, b: Arena, s: PointId, e: PointId, p: PointId, w1: Option<Wing>, w2: Option<Wing>,
                    xp: EdgeId, pe: EdgeId, z1: EdgeId, z2: EdgeId)
    requires EdgeParted(a, s, e, p, w1, w2, xp, pe)
    requires Wf(b) && SameLinks(a, b) && a.mesh.edges <= b.mesh.edges
    requires w1.Some? ==> z1 in b.mesh.edges
    requires w2.Some? ==> z2 in b.mesh.edges
    ensures xp in b.mesh.edges && SideOf(b, xp) == (s, p)
    ensures pe in b.mesh.edges && SideOf(b, pe) == (p, e)
    ensures b.edges[xp].constrained == a.edges[xp].constrained && b.edges[pe].constrained == a.edges[pe].constrained
    ensures forall i :: 0 <= i < |WingCands(w1, z1) + WingCands(w2, z2)| ==>
      (WingCands(w1, z1) + WingCands(w2, z2))[i] in b.mesh.edges
  {
    SameLinksSide(a, b, xp);
    SameLinksSide(a, b, pe);
    WingCandsIn(b.mesh.edges, w1, z1, w2, z2);
  }

  /** The pair S→E, E→S opened and P joined to S and E by pairs carrying the flag of S→E. */
  method PartedEdge(a: Arena, x: EdgeId, p: PointId) returns (b: Arena, xp: EdgeId, pe: EdgeId)
    requires Wf(a) && Simple(a) && x in a.mesh.edges && p in a.mesh.points && Isolated(ShapeOf(a), p)
    requires ApartWings(WingOf(a, x), WingOf(a, a.edges[x].mirror))
    ensures EdgeParted(b, SideOf(a, x).0, SideOf(a, x).1, p, WingOf(a, x), WingOf(a, a.edges[x].mirror), xp, pe)
    ensures b.edges[xp].constrained == a.edges[x].constrained && b.edges[pe].constrained == a.edges[x].constrained
    ensures ShapeOf(b) == Parted(ShapeOf(a), SideOf(a, x).0, SideOf(a, x).1,
                                 a.edges[x].constrained, a.edges[a.edges[x].mirror].constrained,
                                 p, ApexOf(WingOf(a, x)), ApexOf(WingOf(a, a.edges[x].mirror)))
    ensures RefsKept(a, b)
  {
    var a1 := OpenEdge(a, x, p);
    b, xp, pe := JoinParts(a1, SideOf(a, x).0, SideOf(a, x).1, p, WingOf(a, x), WingOf(a, a.edges[x].mirror),
                           a.edges[x].constrained);
    RefsKeptTrans(a, a1, b);
  }

  /** A reference taken on one half-edge leaves the side of every half-edge alone and no count lower. */
  lemma RefSide(a: Arena, y: EdgeId, x: EdgeId)
    requires y in a.edges && x in a.edges && a.edges[x].mirror in a.edges
    ensures SideOf(Edges.Ref(a, y), x) == SideOf(a, x)
    ensures Edges.Ref(a, y).edges[x].refcount >= a.edges[x].refcount
  {
    var b := Edges.Ref(a, y);
    var mx := a.edges[x].mirror;
    assert b.edges[x].end == a.edges[x].end && b.edges[x].mirror == mx;
    assert b.edges[mx].end == a.edges[mx].end;
  }

  /** Taking a reference to each part changes neither the mesh nor the shape. */
  lemma RefParts(a: Arena, x: EdgeId, y: EdgeId)
    requires Wf(a) && Simple(a) && x in a.mesh.edges && y in a.mesh.edges
    ensures var b := Edges.Ref(Edges.Ref(a, x), y);
      Wf(b) && Simple(b) && ShapeOf(b) == ShapeOf(a) && b.mesh == a.mesh
  {
    RefKeeps(a, x);
    RefKeeps(Edges.Ref(a, x), y);
  }

  /** Taking a reference to each part keeps both parts' sides and leaves each with a reference. */
  lemma RefPartsHeld(a: Arena, x: EdgeId, y: EdgeId)
    requires x in a.edges && a.edges[x].mirror in a.edges && y in a.edges && a.edges[y].mirror in a.edges
    ensures var b := Edges.Ref(Edges.Ref(a, x), y);
      && RefsKept(a, b) && Sig(b, x) == Sig(a, x) && Sig(b, y) == Sig(a, y)
      && x in b.edges && y in b.edges && b.edges[x].refcount > 0 && b.edges[y].refcount > 0
  {
    RefSide(a, x, y);
    RefSide(a, x, x);
    RefSide(Edges.Ref(a, x), y, x);
    RefSide(Edges.Ref(a, x), y, y);
  }

  /** The list split_edge hands back: both parts for a constrained edge, none otherwise. */
  function PartsList(k: bool, xp: EdgeId, pe: EdgeId): (r: Option<seq<EdgeId>>)
    ensures r.Some? <==> k
    ensures r.Some? ==> |r.value| == 2 && r.value[0] == xp && r.value[1] == pe
  {
    if k then Some([xp, pe]) else None
  }

  /** For a constrained edge, a reference to each part taken for the caller; nothing else changes. */
  method HoldParts(a: Arena, xp: EdgeId, pe: EdgeId, k: bool) returns (b: Arena)
    requires Wf(a) && Simple(a) && (k ==> xp in a.mesh.edges && pe in a.mesh.edges)
    ensures Wf(b) && Simple(b) && RefsKept(a, b) && ShapeOf(b) == ShapeOf(a) && b.mesh == a.mesh
    ensures k ==> Sig(b, xp) == Sig(a, xp) && Sig(b, pe) == Sig(a, pe)
    ensures k ==> b.edges[xp].refcount > 0 && b.edges[pe].refcount > 0
  {
    if k {
      RefParts(a, xp, pe);
      RefPartsHeld(a, xp, pe);
      b := Edges.Ref(Edges.Ref(a, xp), pe);
    } else {
      b := a;
    }
  }

  /** The pair S→E, E→S opened, P joined to S and E, and both wings refilled. */
  method SplitEdgeTriangles(a: Arena, x: EdgeId, p: PointId) returns (b: Arena, xp: EdgeId, pe: EdgeId, cands: seq<EdgeId>)
    requires Wf(a) && Simple(a) && x in a.mesh.edges && p in a.mesh.points && Isolated(ShapeOf(a), p)
    requires ApartWings(WingOf(a, x), WingOf(a, a.edges[x].mirror))
    ensures Wf(b) && Simple(b) && RefsKept(a, b)
    ensures ShapeOf(b) == EdgeSplit(ShapeOf(a), SideOf(a, x).0, SideOf(a, x).1,
                                    a.edges[x].constrained, a.edges[a.edges[x].mirror].constrained,
                                    p, ApexOf(WingOf(a, x)), ApexOf(WingOf(a, a.edges[x].mirror)))
    ensures xp in b.mesh.edges && SideOf(b, xp) == (SideOf(a, x).0, p)
    ensures pe in b.mesh.edges && SideOf(b, pe) == (p, SideOf(a, x).1)
    ensures b.edges[xp].constrained == a.edges[x].constrained && b.edges[pe].constrained == a.edges[x].constrained
    ensures forall i :: 0 <= i < |cands| ==> cands[i] in b.mesh.edges
  {
    var s, e := SideOf(a, x).0, SideOf(a, x).1;
    var w1, w2 := WingOf(a, x), WingOf(a, a.edges[x].mirror);
    var a2;
    a2, xp, pe := PartedEdge(a, x, p);
    var z1, z2;
    b, z1, z2 := FanWings(a2, s, e, p, w1, w2, xp, pe);
    PartedCands(a2, b, s, e, p, w1, w2, xp, pe, z1, z2);
    cands := WingCands(w1, z1) + WingCands(w2, z2);
    RefsKeptTrans(a, a2, b);
  }

  // ---------------------------------------------------------------------------
  // Flipping an edge
  // ---------------------------------------------------------------------------

  /**
   * The half-edge `x` can be flipped: neither it nor its mirror is
   * constrained, each has a triangle on its left, and the two apexes C and
   * D are distinct points with no side from C to D yet. In a planar
   * triangulation whose quadrilateral fails the in-circle test the last two
   * always hold; the model checks them rather than assume the geometry.
   */
  predicate Flippable(a: Arena, x: EdgeId)
    requires Wf(a) && x in a.mesh.edges
  {
    var mx := a.edges[x].mirror;
    && !a.edges[x].constrained && !a.edges[mx].constrained
    && WingOf(a, x).Some? && WingOf(a, mx).Some?
    && WingOf(a, x).value.apex != WingOf(a, mx).value.apex
    && !HasSide(ShapeOf(a), WingOf(a, x).value.apex, WingOf(a, mx).value.apex)
  }

  /** Links that agree keep every allocated half-edge's signature. */
  lemma SameLinksSig(a: Arena, b: Arena, z: EdgeId)
    requires SameLinks(a, b) && z in a.edges && a.edges[z].mirror in a.edges
    ensures Sig(b, z) == Sig(a, z)
  {
    SameLinksSide(a, b, z);
  }

  /** Removing triangles leaves an uncovered side uncovered. */
  lemma UncoveredFewer(sh: Shape, sh2: Shape, sd: (PointId, PointId))
    requires !Covered(sh, sd) && sh2.triangles <= sh.triangles
    ensures !Covered(sh2, sd)
  {
  }

  /**
   * The diagonal S→E (`x`), E→S (`mx`) of a quadrilateral, both
   * unconstrained: the triangle S, E, C (wing `w1`) on the left of `x`, the
   * triangle E, S, D (wing `w2`) on the left of `mx`.
   */
  predicate Quad(a: Arena, x: EdgeId, mx: EdgeId, s: PointId, e: PointId, w1: Wing, w2: Wing)
  {
    && Wf(a) && Simple(a) && x in a.mesh.edges && mx in a.mesh.edges && a.edges[x].mirror == mx
    && SideOf(a, x) == (s, e) && SideOf(a, mx) == (e, s)
    && Sig(a, x) == (s, e, false) && Sig(a, mx) == (e, s, false)
    && WingOf(a, x) == Some(w1) && WingOf(a, mx) == Some(w2)
    && WingLinked(a, s, e, Some(w1))
    && s != e && w1.apex != s && w1.apex != e && w2.apex != s && w2.apex != e && w1.apex != w2.apex
    && a.edges[mx].tri != a.edges[x].tri
    && !HasSide(ShapeOf(a), w1.apex, w2.apex)
  }

  lemma FlipFacts(a: Arena, x: EdgeId)
    requires Wf(a) && Simple(a) && x in a.mesh.edges && Flippable(a, x)
    ensures Quad(a, x, a.edges[x].mirror, SideOf(a, x).0, SideOf(a, x).1,
                 WingOf(a, x).value, WingOf(a, a.edges[x].mirror).value)
  {
    var mx := a.edges[x].mirror;
    var (s, e) := SideOf(a, x);
    MirrorSide(a, x);
    WingShape(a, x);
    WingShape(a, mx);
    TriNoReverse(s, e, WingOf(a, x).value.apex, WingOf(a, mx).value.apex);
  }

  /** The quadrilateral once the triangle on the left of `x` is gone. */
  predicate QuadLeft(a: Arena, x: EdgeId, mx: EdgeId, s: PointId, e: PointId, w1: Wing, w2: Wing)
  {
    && Wf(a) && Simple(a) && x in a.mesh.edges && mx in a.mesh.edges && a.edges[x].mirror == mx
    && SideOf(a, x) == (s, e) && SideOf(a, mx) == (e, s)
    && a.edges[x].tri.None? && WingOf(a, mx) == Some(w2)
    && WingLinked(a, s, e, Some(w1))
    && s != e && w1.apex != s && w1.apex != e && w2.apex != s && w2.apex != e && w1.apex != w2.apex
    && !Covered(ShapeOf(a), (e, w1.apex)) && !Covered(ShapeOf(a), (w1.apex, s))
    && !HasSide(ShapeOf(a), w1.apex, w2.apex)
  }

  lemma FlipLeft(a: Arena, x: EdgeId, mx: EdgeId, s: PointId, e: PointId, w1: Wing, w2: Wing)
    requires Quad(a, x, mx, s, e, w1, w2)
    ensures QuadLeft(Uncap(a, x), x, mx, s, e, w1, w2)
    ensures SameLinks(a, Uncap(a, x)) && RefsKept(a, Uncap(a, x))
    ensures Uncap(a, x).mesh.edges == a.mesh.edges
    ensures ShapeOf(Uncap(a, x)) == WithoutTri(ShapeOf(a), Tri(s, e, w1.apex))
  {
    UncapFrame(a, x, mx);
    var a1 := Uncap(a, x);
    SameLinksSide(a, a1, x);
    SameLinksSide(a, a1, mx);
    WingLinkedKept(a, a1, s, e, Some(w1));
  }

  /** The quadrilateral with both triangles gone: the diagonal can be unlinked. */
  predicate QuadBoth(a: Arena, x: EdgeId, mx: EdgeId, s: PointId, e: PointId, w1: Wing, w2: Wing)
  {
    && Unlinkable(a, x) && a.edges[x].mirror == mx && a.edges[x].tri.None? && a.edges[mx].tri.None?
    && SideOf(a, x) == (s, e) && SideOf(a, mx) == (e, s)
    && WingLinked(a, s, e, Some(w1)) && WingLinked(a, e, s, Some(w2))
    && s != e && w1.apex != s && w1.apex != e && w2.apex != s && w2.apex != e && w1.apex != w2.apex
    && !Covered(ShapeOf(a), (e, w1.apex)) && !Covered(ShapeOf(a), (w1.apex, s))
    && !Covered(ShapeOf(a), (s, w2.apex)) && !Covered(ShapeOf(a), (w2.apex, e))
    && !HasSide(ShapeOf(a), w1.apex, w2.apex)
  }

  lemma FlipRight(a: Arena, x: EdgeId, mx: EdgeId, s: PointId, e: PointId, w1: Wing, w2: Wing, sh0: Shape)
    requires QuadLeft(a, x, mx, s, e, w1, w2)
    requires ShapeOf(a) == WithoutTri(sh0, Tri(s, e, w1.apex))
    ensures QuadBoth(Uncap(a, mx), x, mx, s, e, w1, w2)
    ensures SameLinks(a, Uncap(a, mx)) && RefsKept(a, Uncap(a, mx))
    ensures Uncap(a, mx).mesh.edges == a.mesh.edges
    ensures ShapeOf(Uncap(a, mx)) == Uncapped(sh0, s, e, Some(w1.apex), Some(w2.apex))
  {
    WingShape(a, mx);
    UncapFrame(a, mx, x);
    var b := Uncap(a, mx);
    SameLinksSide(a, b, x);
    SameLinksSide(a, b, mx);
    WingLinkedKept(a, b, s, e, Some(w1));
    WingLinkedKept(a, b, e, s, Some(w2));
    UncoveredFewer(ShapeOf(a), ShapeOf(b), (e, w1.apex));
    UncoveredFewer(ShapeOf(a), ShapeOf(b), (w1.apex, s));
    EdgeCovered(b, x);
  }

  /** Unlinking the diagonal of the opened quadrilateral: what changes in the arena. */
  lemma FlipUnlink(a: Arena, x: EdgeId, mx: EdgeId, s: PointId, e: PointId, w1: Wing, w2: Wing)
    requires QuadBoth(a, x, mx, s, e, w1, w2)
    requires Sig(a, x) == (s, e, false) && Sig(a, mx) == (e, s, false)
    ensures var b := RemoveEdge(a, x);
      && Wf(b) && Simple(b) && SameLinks(a, b) && RefsKept(a, b) && b.mesh.edges == a.mesh.edges - {x, mx}
      && ShapeOf(b) == WithoutPair(ShapeOf(a), s, e, false, false)
  {
    Unlink(a, x);
  }

  /**
   * The diagonal unlinked: the quadrilateral S→D→E→C around the missing
   * diagonal is the hole a fan from C through D fills.
   */
  method FlipPair(a: Arena, x: EdgeId, mx: EdgeId, s: PointId, e: PointId, w1: Wing, w2: Wing) returns (b: Arena)
    requires QuadBoth(a, x, mx, s, e, w1, w2)
    requires Sig(a, x) == (s, e, false) && Sig(a, mx) == (e, s, false)
    ensures b == RemoveEdge(a, x)
    ensures FanReady(b, s, w2.apex, e, w1.apex, w2.next, w2.prev, w1.next, w1.prev)
  {
    FlipUnlink(a, x, mx, s, e, w1, w2);
    b := RemoveEdge(a, x);
    WingAfterUnlink(a, b, s, e, x, mx, Some(w1));
    WingAfterUnlink(a, b, e, s, x, mx, Some(w2));
  }

  /**
   * The first half of a flip: both triangles of the quadrilateral around
   * `x` and the diagonal pair itself removed, leaving the hole for the fan
   * from C through D.
   */
  method FlipOpen(a: Arena, x: EdgeId) returns (b: Arena)
    requires Wf(a) && Simple(a) && x in a.mesh.edges && Flippable(a, x)
    ensures var (s, e) := SideOf(a, x);
      var w1, w2 := WingOf(a, x).value, WingOf(a, a.edges[x].mirror).value;
      && FanReady(b, s, w2.apex, e, w1.apex, w2.next, w2.prev, w1.next, w1.prev)
      && ShapeOf(b) == WithoutPair(Uncapped(ShapeOf(a), s, e, Some(w1.apex), Some(w2.apex)), s, e, false, false)
    ensures SameLinks(a, b) && RefsKept(a, b) && b.mesh.edges == a.mesh.edges - {x, a.edges[x].mirror}
  {
    var mx := a.edges[x].mirror;
    var s, e := SideOf(a, x).0, SideOf(a, x).1;
    var w1, w2 := WingOf(a, x).value, WingOf(a, mx).value;
    FlipFacts(a, x);
    FlipLeft(a, x, mx, s, e, w1, w2);
    var a1 := Uncap(a, x);
    FlipRight(a1, x, mx, s, e, w1, w2, ShapeOf(a));
    var a2 := Uncap(a1, mx);
    SameLinksSig(a1, a2, x);
    SameLinksSig(a1, a2, mx);
    SameLinksSig(a, a1, x);
    SameLinksSig(a, a1, mx);
    FlipUnlink(a2, x, mx, s, e, w1, w2);
    b := FlipPair(a2, x, mx, s, e, w1, w2);
    SameLinksTrans(a, a1, a2);
    SameLinksTrans(a, a2, b);
    RefsKeptTrans(a, a1, a2);
    RefsKeptTrans(a, a2, b);
  }

  lemma FourIn(m: set<EdgeId>, y1: EdgeId, y2: EdgeId, y3: EdgeId, y4: EdgeId)
    requires y1 in m && y2 in m && y3 in m && y4 in m
    ensures forall i :: 0 <= i < |[y1, y2, y3, y4]| ==> [y1, y2, y3, y4][i] in m
  {
  }

  /**
   * The flip of the unconstrained diagonal `x` (S→E) of the quadrilateral
   * S, D, E, C: both triangles and the diagonal pair are removed, C is
   * joined to D by a new unconstrained pair, and the triangles S, D, C and
   * D, E, C are created. The four outer sides of the quadrilateral, which
   * the flip may have made illegal, come back in `cands`.
   */
  method Flip(a: Arena, x: EdgeId) returns (b: Arena, z: EdgeId, cands: seq<EdgeId>)
    requires Wf(a) && Simple(a) && x in a.mesh.edges && Flippable(a, x)
    ensures Wf(b) && Simple(b) && SameLinks(a, b) && RefsKept(a, b)
    ensures ShapeOf(b) == Flipped(ShapeOf(a), SideOf(a, x).0, SideOf(a, x).1, WingOf(a, x).value.apex,
                                  WingOf(a, a.edges[x].mirror).value.apex, false, false)
    ensures z in b.mesh.edges && SideOf(b, z) == (WingOf(a, x).value.apex, WingOf(a, a.edges[x].mirror).value.apex)
    ensures a.mesh.edges - {x, a.edges[x].mirror} <= b.mesh.edges
    ensures |cands| == 4 && forall i :: 0 <= i < |cands| ==> cands[i] in b.mesh.edges
  {
    var s, e := SideOf(a, x).0, SideOf(a, x).1;
    var w1, w2 := WingOf(a, x).value, WingOf(a, a.edges[x].mirror).value;
    var a1 := FlipOpen(a, x);
    b, z := Fan(a1, s, w2.apex, e, w1.apex, w2.next, w2.prev, w1.next, w1.prev);
    cands := [w1.next, w1.prev, w2.next, w2.prev];
    FourIn(b.mesh.edges, w1.next, w1.prev, w2.next, w2.prev);
    SameLinksTrans(a, a1, b);
    RefsKeptTrans(a, a1, b);
  }

  // ---------------------------------------------------------------------------
  // Flip-fix
  // ---------------------------------------------------------------------------

  /**
   * What flip-fix promises of the mesh `b` it leaves, against the mesh `a`
   * it was given: the same points and constrained signatures, every
   * constrained half-edge still in the mesh with its signature, a valid
   * shape still valid, the same points attached to the triangulation and
   * as many triangles: a flip trades two triangles for two.
   */
  predicate FixKeeps(a: Arena, b: Arena)
  {
    && ShapeOf(b).points == ShapeOf(a).points && Constrained(ShapeOf(b)) == Constrained(ShapeOf(a))
    && (ShapeValid(ShapeOf(a)) ==> ShapeValid(ShapeOf(b)))
    && Attached(ShapeOf(b)) == Attached(ShapeOf(a)) && |ShapeOf(b).triangles| == |ShapeOf(a).triangles|
    && forall y :: y in a.mesh.edges && Sig(a, y).2 ==> y in b.mesh.edges && Sig(b, y) == Sig(a, y)
  }

  lemma FixKeepsTrans(a: Arena, b: Arena, c: Arena)
    requires FixKeeps(a, b) && FixKeeps(b, c)
    ensures FixKeeps(a, c)
  {
  }

  /** Arenas with the same half-edges, triangles and mesh have the same shape. */
  lemma SameMeshKeeps(a: Arena, b: Arena)
    requires FlipSets.SameMesh(a, b)
    ensures ShapeOf(b) == ShapeOf(a) && FixKeeps(a, b)
  {
    EdgesUntouched(a, b);
    assert forall y :: Sig(b, y) == Sig(a, y);
  }

  /** A change of reference counts alone keeps the invariant, simplicity and the shape. */
  lemma CountsKeep(a: Arena, b: Arena)
    requires Wf(a) && Simple(a) && VEdges.CountsOnly(a, b) && Allocated(b)
    requires b.edges.Keys == a.edges.Keys
    requires forall y :: y in a.edges ==> b.edges[y] == a.edges[y].(refcount := b.edges[y].refcount)
    requires b.tris == a.tris && b.mesh == a.mesh && b.id == a.id
    ensures Wf(b) && Simple(b) && ShapeOf(b) == ShapeOf(a)
  {
    assert SameTopology(a, b);
    SameTopologyKeeps(a, b);
  }

  /** The unordered end-point pair of a half-edge, as the flip set keys it. */
  function PairOf(a: Arena, x: EdgeId): set<PointId>
  {
    {SideOf(a, x).0, SideOf(a, x).1}
  }

  /** A half-edge FlipSets.Add can take: allocated with its mirror, and both end points live. */
  predicate Addable(a: Arena, x: EdgeId)
  {
    x in a.edges && a.edges[x].mirror in a.edges && Start(a, x) in a.points && a.edges[x].end in a.points
  }

  /**
   * p2tr_flip_set_add on a half-edge, after taking the reference the call
   * hands on to the set: the set gains the end-point pair of `x` unless it
   * held it already, and the half-edges, the triangles and the mesh are as
   * they were.
   */
  function Push(a: Arena, fs: FlipSets.FlipSet, x: EdgeId): (r: (Arena, FlipSets.FlipSet))
    requires Allocated(a) && FlipSets.Valid(a, fs) && Addable(a, x)
    ensures Allocated(r.0) && FlipSets.Valid(r.0, r.1)
    ensures FlipSets.SameMesh(a, r.0) && VEdges.CountsOnly(a, r.0)
  {
    Edges.RefThenUnref(a, x);
    Edges.UnrefEdges(Edges.Ref(a, x), Edges.Ref(a, x), x);
    FlipSets.Add(Edges.Ref(a, x), fs, x)
  }

  lemma PushKeys(a: Arena, fs: FlipSets.FlipSet, x: EdgeId)
    requires Allocated(a) && FlipSets.Valid(a, fs) && Addable(a, x)
    ensures var r := Push(a, fs, x); FlipSets.Keys(r.0, r.1) == FlipSets.Keys(a, fs) + {PairOf(a, x)}
  {
    var r := FlipSets.Add(Edges.Ref(a, x), fs, x);
    assert Push(a, fs, x) == r;
  }

  lemma PushCover(a: Arena, fs: FlipSets.FlipSet, x: EdgeId)
    requires Allocated(a) && FlipSets.Valid(a, fs) && Addable(a, x) && VEdges.RefsCover(a)
    ensures VEdges.RefsCover(Push(a, fs, x).0)
  {
    VEdges.SameRefsCover(a, Edges.Ref(a, x));
    FlipSets.AddCover(Edges.Ref(a, x), fs, x);
  }

  /** The tail of a candidate list stays addable once only reference counts changed. */
  lemma AddableTail(a: Arena, b: Arena, cands: seq<EdgeId>)
    requires b.edges == a.edges && b.points.Keys == a.points.Keys && |cands| > 0
    requires forall i :: 0 <= i < |cands| ==> Addable(a, cands[i])
    ensures forall i :: 0 <= i < |cands[1..]| ==> Addable(b, cands[1..][i])
  {
    forall i | 0 <= i < |cands[1..]|
      ensures Addable(b, cands[1..][i])
    {
      assert cands[1..][i] == cands[i + 1] && Addable(a, cands[i + 1]);
      assert Start(b, cands[i + 1]) == Start(a, cands[i + 1]);
    }
  }

  /** Push on each candidate in turn. */
  function EnqueuePairs(a: Arena, fs: FlipSets.FlipSet, cands: seq<EdgeId>): (r: (Arena, FlipSets.FlipSet))
    requires Allocated(a) && FlipSets.Valid(a, fs)
    requires forall i :: 0 <= i < |cands| ==> Addable(a, cands[i])
    ensures Allocated(r.0) && FlipSets.Valid(r.0, r.1)
    decreases |cands|
  {
    if |cands| == 0 then (a, fs)
    else
      var (a1, fs1) := Push(a, fs, cands[0]);
      AddableTail(a, a1, cands);
      EnqueuePairs(a1, fs1, cands[1..])
  }

  /** EnqueuePairs touches only reference counts and virtual edges, and keeps the accounting. */
  lemma {:induction false} EnqueuePairsFrame(a: Arena, fs: FlipSets.FlipSet, cands: seq<EdgeId>)
    requires Allocated(a) && FlipSets.Valid(a, fs) && VEdges.RefsCover(a)
    requires forall i :: 0 <= i < |cands| ==> Addable(a, cands[i])
    ensures var r := EnqueuePairs(a, fs, cands);
      FlipSets.SameMesh(a, r.0) && VEdges.CountsOnly(a, r.0) && VEdges.RefsCover(r.0)
    decreases |cands|
  {
    if |cands| > 0 {
      var (a1, fs1) := Push(a, fs, cands[0]);
      AddableTail(a, a1, cands);
      PushCover(a, fs, cands[0]);
      EnqueuePairsFrame(a1, fs1, cands[1..]);
      VEdges.CountsOnlyTrans(a, a1, EnqueuePairs(a, fs, cands).0);
    }
  }

  /** EnqueuePairs adds exactly the end-point pairs of the candidates to the set. */
  lemma {:induction false} EnqueuePairsKeys(a: Arena, fs: FlipSets.FlipSet, cands: seq<EdgeId>)
    requires Allocated(a) && FlipSets.Valid(a, fs)
    requires forall i :: 0 <= i < |cands| ==> Addable(a, cands[i])
    ensures var r := EnqueuePairs(a, fs, cands);
      FlipSets.Keys(r.0, r.1) == FlipSets.Keys(a, fs) + Pairs(a, cands)
    decreases |cands|
  {
    if |cands| > 0 {
      var p := KeysStep(a, fs, cands);
      PushPairs(a, fs, cands);
      EnqueuePairsKeys(p.0, p.1, cands[1..]);
    }
  }

  /** One step of EnqueuePairs, as EnqueuePairsKeys needs it. */
  lemma KeysStep(a: Arena, fs: FlipSets.FlipSet, cands: seq<EdgeId>) returns (p: (Arena, FlipSets.FlipSet))
    requires Allocated(a) && FlipSets.Valid(a, fs) && |cands| > 0
    requires forall i :: 0 <= i < |cands| ==> Addable(a, cands[i])
    ensures p == Push(a, fs, cands[0]) && Allocated(p.0) && FlipSets.Valid(p.0, p.1)
    ensures forall i :: 0 <= i < |cands[1..]| ==> Addable(p.0, cands[1..][i])
    ensures EnqueuePairs(a, fs, cands) == EnqueuePairs(p.0, p.1, cands[1..])
  {
    p := Push(a, fs, cands[0]);
    AddableTail(a, p.0, cands);
  }

  /** The pairs still to come, after one Push, make up the same total. */
  lemma PushPairs(a: Arena, fs: FlipSets.FlipSet, cands: seq<EdgeId>)
    requires Allocated(a) && FlipSets.Valid(a, fs) && |cands| > 0 && Addable(a, cands[0])
    ensures var p := Push(a, fs, cands[0]);
      FlipSets.Keys(a, fs) + Pairs(a, cands) == FlipSets.Keys(p.0, p.1) + Pairs(p.0, cands[1..])
  {
    PushKeys(a, fs, cands[0]);
    PairsTail(a, Push(a, fs, cands[0]).0, cands);
  }

  /**
   * Queues every half-edge of the mesh in `cands` for flip-fix: the set
   * gains the end-point pair of each candidate, once whichever way it
   * runs, and the mesh is untouched.
   */
  method Enqueue(a: Arena, fs: FlipSets.FlipSet, cands: seq<EdgeId>) returns (b: Arena, gs: FlipSets.FlipSet)
    requires FlipSets.Fixing(a, fs) && forall i :: 0 <= i < |cands| ==> cands[i] in a.mesh.edges
    ensures FlipSets.Fixing(b, gs) && FlipSets.SameMesh(a, b)
    ensures FlipSets.Keys(b, gs) == FlipSets.Keys(a, fs) + Pairs(a, cands)
  {
    forall i | 0 <= i < |cands|
      ensures Addable(a, cands[i])
    {
      SideEnds(a, cands[i]);
    }
    EnqueuePairsFrame(a, fs, cands);
    EnqueuePairsKeys(a, fs, cands);
    b, gs := EnqueuePairs(a, fs, cands).0, EnqueuePairs(a, fs, cands).1;
    CountsKeep(a, b);
  }

  /** The end-point pairs of a candidate list. */
  function Pairs(a: Arena, cands: seq<EdgeId>): set<set<PointId>>
  {
    set i | 0 <= i < |cands| :: PairOf(a, cands[i])
  }

  /** The end-point pairs of a candidate list are those of its head and of its tail. */
  lemma PairsTail(a: Arena, b: Arena, cands: seq<EdgeId>)
    requires b.edges == a.edges && |cands| > 0
    ensures Pairs(a, cands) == {PairOf(a, cands[0])} + Pairs(b, cands[1..])
  {
    var tail := Pairs(b, cands[1..]);
    forall k | k in Pairs(a, cands) ensures k in {PairOf(a, cands[0])} + tail {
      var i :| 0 <= i < |cands| && k == PairOf(a, cands[i]);
      if i > 0 {
        assert cands[1..][i - 1] == cands[i] && PairOf(b, cands[i]) == k;
      }
    }
    forall k | k in tail ensures k in Pairs(a, cands) {
      var i :| 0 <= i < |cands[1..]| && k == PairOf(b, cands[1..][i]);
      assert cands[1..][i] == cands[i + 1] && PairOf(a, cands[i + 1]) == k;
    }
  }

  /**
   * The head of flip-fix's loop, FlipSets.Next on a fixing state: the set
   * loses one member and the mesh is untouched. `ox` is the half-edge of
   * the mesh the popped member names, if any.
   */
  method Candidate(a: Arena, fs: FlipSets.FlipSet) returns (b: Arena, rest: FlipSets.FlipSet, ox: Option<EdgeId>)
    requires FlipSets.Fixing(a, fs) && |fs| > 0
    ensures FlipSets.Fixing(b, rest) && |rest| == |fs| - 1 && FlipSets.SameMesh(a, b)
    ensures ox.Some? ==> ox.value in b.mesh.edges
  {
    var r := FlipSets.Next(a, fs);
    b, rest, ox := r.0, r.1, r.2;
    CountsKeep(a, b);
  }

  /**
   * The in-circle test of flip-fix on `x` (S→E): D, the apex on the far
   * side, lies strictly inside the circle through S, E and C, the apex on
   * the near side, so the diagonal is not locally Delaunay.
   */
  predicate Illegal(g: Geometry.Oracle, a: Arena, x: EdgeId)
    requires x in a.edges && a.edges[x].mirror in a.edges
  {
    var w1, w2 := WingOf(a, x), WingOf(a, a.edges[x].mirror);
    var (s, e) := SideOf(a, x);
    && w1.Some? && w2.Some?
    && s in a.points && e in a.points && w1.value.apex in a.points && w2.value.apex in a.points
    && g.inCircle(a.points[s].c, a.points[e].c, a.points[w1.value.apex].c, a.points[w2.value.apex].c)
  }

  /** The facts about a flippable half-edge's shape that FlippedValid needs. */
  lemma FlipShapeFacts(a: Arena, x: EdgeId)
    requires Wf(a) && Simple(a) && x in a.mesh.edges && Flippable(a, x)
    ensures var (s, e) := SideOf(a, x);
      var c, d := WingOf(a, x).value.apex, WingOf(a, a.edges[x].mirror).value.apex;
      && ShapeSimple(ShapeOf(a))
      && Tri(s, e, c) in ShapeOf(a).triangles && Tri(e, s, d) in ShapeOf(a).triangles
      && (s, e, false) in ShapeOf(a).edges && (e, s, false) in ShapeOf(a).edges
  {
    var mx := a.edges[x].mirror;
    MirrorSide(a, x);
    WingShape(a, x);
    WingShape(a, mx);
    SimpleShape(a);
    assert Sig(a, x) in EdgeSigs(a) && Sig(a, mx) in EdgeSigs(a);
    assert TriSigOf(a, WingOf(a, x).value.t) in TriSigs(a);
    assert TriSigOf(a, WingOf(a, mx).value.t) in TriSigs(a);
  }

  /**
   * A flip keeps the points, the constrained signatures, validity, the
   * points attached to the triangulation and the number of triangles.
   */
  lemma FlipShapeKept(a: Arena, x: EdgeId, b: Arena)
    requires Wf(a) && Simple(a) && x in a.mesh.edges && Flippable(a, x)
    requires ShapeOf(b) == Flipped(ShapeOf(a), SideOf(a, x).0, SideOf(a, x).1, WingOf(a, x).value.apex,
                                   WingOf(a, a.edges[x].mirror).value.apex, false, false)
    ensures ShapeOf(b).points == ShapeOf(a).points && Constrained(ShapeOf(b)) == Constrained(ShapeOf(a))
    ensures ShapeValid(ShapeOf(a)) ==> ShapeValid(ShapeOf(b))
    ensures Attached(ShapeOf(b)) == Attached(ShapeOf(a)) && |ShapeOf(b).triangles| == |ShapeOf(a).triangles|
  {
    var (s, e) := SideOf(a, x);
    var c, d := WingOf(a, x).value.apex, WingOf(a, a.edges[x].mirror).value.apex;
    FlipShapeFacts(a, x);
    FlippedKeeps(ShapeOf(a), s, e, c, d);
    ListedSides(a);
    FlippedAttached(ShapeOf(a), s, e, c, d);
    FlippedCount(ShapeOf(a), s, e, c, d);
    if ShapeValid(ShapeOf(a)) {
      FlippedValid(ShapeOf(a), s, e, c, d);
    }
  }

  /** A flip removes only the flipped pair, which is unconstrained, so every constrained half-edge stays. */
  lemma FlipConstrainedKept(a: Arena, x: EdgeId, b: Arena)
    requires Wf(a) && x in a.mesh.edges && Flippable(a, x) && SameLinks(a, b)
    requires a.mesh.edges - {x, a.edges[x].mirror} <= b.mesh.edges
    ensures forall y :: y in a.mesh.edges && Sig(a, y).2 ==> y in b.mesh.edges && Sig(b, y) == Sig(a, y)
  {
    forall y | y in a.mesh.edges && Sig(a, y).2
      ensures y in b.mesh.edges && Sig(b, y) == Sig(a, y)
    {
      MirrorSide(a, y);
      SameLinksSig(a, b, y);
    }
  }

  /** A flip, with what flip-fix needs to know of it. */
  method FlipKept(a: Arena, x: EdgeId) returns (b: Arena, cands: seq<EdgeId>)
    requires Wf(a) && Simple(a) && x in a.mesh.edges && Flippable(a, x)
    ensures Wf(b) && Simple(b) && RefsKept(a, b) && FixKeeps(a, b)
    ensures forall i :: 0 <= i < |cands| ==> cands[i] in b.mesh.edges
  {
    var z;
    b, z, cands := Flip(a, x);
    FlipShapeKept(a, x, b);
    FlipConstrainedKept(a, x, b);
  }

  /**
   * One round of flip-fix: pop a candidate, and if it names a half-edge of
   * the mesh that can be flipped and fails the in-circle test, flip it and
   * queue the four outer sides of its quadrilateral. Each flip spends one
   * unit of `fuel`; with none left, candidates are only popped and released.
   */
  method FixOne(g: Geometry.Oracle, a: Arena, fs: FlipSets.FlipSet, fuel: nat)
    returns (b: Arena, gs: FlipSets.FlipSet, fuel2: nat)
    requires FlipSets.Fixing(a, fs) && |fs| > 0
    ensures FlipSets.Fixing(b, gs) && FixKeeps(a, b)
    ensures fuel2 < fuel || (fuel2 == fuel && |gs| < |fs|)
  {
    var a1, rest, ox := Candidate(a, fs);
    SameMeshKeeps(a, a1);
    if ox.Some? && fuel > 0 {
      var x := ox.value;
      if Flippable(a1, x) && Illegal(g, a1, x) {
        var a2, cands := FlipKept(a1, x);
        VEdges.FrameCover(a1, a2);
        b, gs := Enqueue(a2, rest, cands);
        SameMeshKeeps(a2, b);
        FixKeepsTrans(a, a1, a2);
        FixKeepsTrans(a, a2, b);
        fuel2 := fuel - 1;
        return;
      }
    }
    b, gs, fuel2 := a1, rest, fuel;
  }

  /**
   * p2tr_cdt_flip_fix: candidates are processed until the set is empty.
   * The Lawson flip argument that bounds the number of flips is geometric;
   * the model bounds it by `fuel` instead, after which the remaining
   * candidates are popped and released without flipping. On an empty set
   * nothing changes.
   */
  method FlipFix(g: Geometry.Oracle, a: Arena, fs: FlipSets.FlipSet, fuel: nat)
    returns (b: Arena, gs: FlipSets.FlipSet)
    requires FlipSets.Fixing(a, fs)
    ensures FlipSets.Fixing(b, gs) && |gs| == 0
    ensures FixKeeps(a, b)
    ensures |fs| == 0 ==> b == a
  {
    b, gs := a, fs;
    var f := fuel;
    SameMeshKeeps(a, a);
    while |gs| > 0
      invariant FlipSets.Fixing(b, gs) && FixKeeps(a, b)
      invariant |fs| == 0 ==> b == a && |gs| == 0
      decreases f, |gs|
    {
      var b1, gs1, f1 := FixOne(g, b, gs, f);
      FixKeepsTrans(a, b, b1);
      b, gs, f := b1, gs1, f1;
    }
  }

  // ---------------------------------------------------------------------------
  // The CDT operations
  // ---------------------------------------------------------------------------

  /** What every CDT operation keeps of its mesh: well formed, simple, and its virtual edges accounted for. */
  predicate Sound(a: Arena)
  {
    Wf(a) && Simple(a) && VEdges.RefsCover(a)
  }

  /**
   * The way split_edge and insert_point_into_triangle end: the candidate
   * sides go into a new flip set, and flip-fix runs until it is empty.
   */
  method FixAround(g: Geometry.Oracle, a: Arena, cands: seq<EdgeId>, fuel: nat) returns (b: Arena)
    requires Sound(a) && forall i :: 0 <= i < |cands| ==> cands[i] in a.mesh.edges
    ensures Sound(b) && FixKeeps(a, b)
  {
    var fs := FlipSets.New();
    var a1, fs1 := Enqueue(a, fs, cands);
    SameMeshKeeps(a, a1);
    var gs;
    b, gs := FlipFix(g, a1, fs1, fuel);
    FixKeepsTrans(a, a1, b);
  }

  /** The oracle places the coordinates `pt` on the half-edge `x`, between its two ends. */
  predicate OnSide(g: Geometry.Oracle, a: Arena, x: EdgeId, pt: Vector2)
    requires x in a.edges
  {
    var (s, e) := SideOf(a, x);
    s in a.points && e in a.points && g.onSegment(pt, a.points[s].c, a.points[e].c)
  }

  /** The two ends of a mesh half-edge, with the flags of it and of its mirror, and the apexes on either side. */
  lemma SplitShapeFacts(a: Arena, x: EdgeId)
    requires Wf(a) && Simple(a) && x in a.mesh.edges
    ensures var (s, e) := SideOf(a, x);
      var mx := a.edges[x].mirror;
      var c, d := ApexOf(WingOf(a, x)), ApexOf(WingOf(a, mx));
      && ShapeSimple(ShapeOf(a))
      && (s, e, a.edges[x].constrained) in ShapeOf(a).edges && (e, s, a.edges[mx].constrained) in ShapeOf(a).edges
      && (c.Some? ==> Tri(s, e, c.value) in ShapeOf(a).triangles)
      && (d.Some? ==> Tri(e, s, d.value) in ShapeOf(a).triangles)
      && (ShapeValid(ShapeOf(a)) && !a.edges[x].constrained ==> c.Some? && d.Some?)
  {
    var mx := a.edges[x].mirror;
    MirrorSide(a, x);
    WingShape(a, x);
    WingShape(a, mx);
    SimpleShape(a);
    assert Sig(a, x) in EdgeSigs(a) && Sig(a, mx) in EdgeSigs(a);
    if WingOf(a, x).Some? {
      assert TriSigOf(a, WingOf(a, x).value.t) in TriSigs(a);
    }
    if WingOf(a, mx).Some? {
      assert TriSigOf(a, WingOf(a, mx).value.t) in TriSigs(a);
    }
    if ShapeValid(ShapeOf(a)) {
      EdgesValidShape(a);
      assert EdgeValid(a, x);
    }
  }

  /**
   * What a split of the half-edge `x` at P does to the points, the
   * constrained signatures, validity, the attached points and the number of
   * triangles.
   */
  lemma SplitShapeKept(a: Arena, x: EdgeId, p: PointId, b: Arena)
    requires Wf(a) && Simple(a) && x in a.mesh.edges && Isolated(ShapeOf(a), p)
    requires ApartWings(WingOf(a, x), WingOf(a, a.edges[x].mirror))
    requires ShapeOf(b) == EdgeSplit(ShapeOf(a), SideOf(a, x).0, SideOf(a, x).1,
                                     a.edges[x].constrained, a.edges[a.edges[x].mirror].constrained,
                                     p, ApexOf(WingOf(a, x)), ApexOf(WingOf(a, a.edges[x].mirror)))
    ensures ShapeOf(b).points == ShapeOf(a).points
    ensures Constrained(ShapeOf(b)) == SplitConstrained(ShapeOf(a), SideOf(a, x).0, SideOf(a, x).1,
                                                        a.edges[x].constrained, a.edges[a.edges[x].mirror].constrained, p)
    ensures ShapeValid(ShapeOf(a)) ==> ShapeValid(ShapeOf(b))
    ensures Attached(ShapeOf(b)) == Attached(ShapeOf(a)) + {p}
    ensures |ShapeOf(b).triangles| == |ShapeOf(a).triangles| + Wings(a, x)
  {
    var (s, e) := SideOf(a, x);
    var mx := a.edges[x].mirror;
    var kab, kba := a.edges[x].constrained, a.edges[mx].constrained;
    var c, d := ApexOf(WingOf(a, x)), ApexOf(WingOf(a, mx));
    SplitShapeFacts(a, x);
    ListedSides(a);
    EdgeSplitAttached(ShapeOf(a), s, e, kab, kba, p, c, d);
    EdgeSplitCount(ShapeOf(a), s, e, kab, kba, p, c, d);
    EdgeSplitSets(ShapeOf(a), s, e, kab, kba, p, c, d);
    EdgeSplitConstrained(ShapeOf(a), s, e, kab, kba, p, c, d);
    if ShapeValid(ShapeOf(a)) {
      EdgeSplitValid(ShapeOf(a), s, e, kab, kba, p, c, d);
    }
  }

  /** The number of triangles on the two sides of the half-edge `x`: the triangles its split halves. */
  function Wings(a: Arena, x: EdgeId): nat
    requires x in a.edges && a.edges[x].mirror in a.edges
  {
    (if WingOf(a, x).Some? then 1 else 0) + (if WingOf(a, a.edges[x].mirror).Some? then 1 else 0)
  }

  /**
   * The constrained signatures of a shape once its side S→E, flagged `kab`
   * with its mirror flagged `kba`, is split at P: a constrained side gives
   * way to its two halves, each constrained both ways.
   */
  function SplitConstrained(sh: Shape, s: PointId, e: PointId, kab: bool, kba: bool, p: PointId): set<EdgeSig>
  {
    Constrained(sh) - {(s, e, kab), (e, s, kba)}
    + (if kab then {(s, p, true), (p, s, true), (p, e, true), (e, p, true)} else {})
  }

  /** The split of S→E at P followed by flip-fix, with the two parts it made. */
  method SplitAndFix(g: Geometry.Oracle, a: Arena, x: EdgeId, p: PointId, fuel: nat)
    returns (b: Arena, xp: EdgeId, pe: EdgeId)
    requires Sound(a) && x in a.mesh.edges && p in a.mesh.points && Isolated(ShapeOf(a), p)
    requires ApartWings(WingOf(a, x), WingOf(a, a.edges[x].mirror))
    ensures Sound(b) && ShapeOf(b).points == ShapeOf(a).points
    ensures Constrained(ShapeOf(b)) == SplitConstrained(ShapeOf(a), SideOf(a, x).0, SideOf(a, x).1,
                                                        a.edges[x].constrained, a.edges[a.edges[x].mirror].constrained, p)
    ensures ShapeValid(ShapeOf(a)) ==> ShapeValid(ShapeOf(b))
    ensures Attached(ShapeOf(b)) == Attached(ShapeOf(a)) + {p}
    ensures |ShapeOf(b).triangles| == |ShapeOf(a).triangles| + Wings(a, x)
    ensures a.edges[x].constrained ==>
      && xp in b.mesh.edges && Sig(b, xp) == (SideOf(a, x).0, p, true)
      && pe in b.mesh.edges && Sig(b, pe) == (p, SideOf(a, x).1, true)
  {
    var a1, cands;
    a1, xp, pe, cands := SplitEdgeTriangles(a, x, p);
    VEdges.FrameCover(a, a1);
    SplitShapeKept(a, x, p, a1);
    assert Sig(a1, xp) == (SideOf(a, x).0, p, a.edges[x].constrained);
    assert Sig(a1, pe) == (p, SideOf(a, x).1, a.edges[x].constrained);
    b := FixAround(g, a1, cands, fuel);
  }

  /**
   * p2tr_cdt_split_edge on the half-edge S→E and the point P, which the
   * caller has added to the mesh unlinked and which lies on S→E between its
   * ends: the triangles on both sides go, S→E and its mirror give way to
   * S→P and P→E with the flag of S→E, each wing is refilled by a fan from
   * its apex, and flip-fix restores the Delaunay property around P. The
   * constrained subsegment S→E is replaced by its two halves and nothing
   * else constrained changes. P ends up attached to the triangulation, and
   * each triangle S→E had on either side becomes two. A constrained S→E
   * yields the list of its two
   * parts, still in the mesh after flip-fix and each holding the reference
   * the caller now owns; an unconstrained one yields no list.
   */
  method SplitEdge(g: Geometry.Oracle, a: Arena, x: EdgeId, p: PointId, fuel: nat)
    returns (b: Arena, parts: Option<seq<EdgeId>>)
    requires Sound(a) && x in a.mesh.edges && p in a.mesh.points && Isolated(ShapeOf(a), p)
    requires p in a.points && OnSide(g, a, x, a.points[p].c)
    requires ApartWings(WingOf(a, x), WingOf(a, a.edges[x].mirror))
    ensures Sound(b) && ShapeOf(b).points == ShapeOf(a).points
    ensures Constrained(ShapeOf(b)) == SplitConstrained(ShapeOf(a), SideOf(a, x).0, SideOf(a, x).1,
                                                        a.edges[x].constrained, a.edges[a.edges[x].mirror].constrained, p)
    ensures ShapeValid(ShapeOf(a)) ==> ShapeValid(ShapeOf(b))
    ensures Attached(ShapeOf(b)) == Attached(ShapeOf(a)) + {p}
    ensures |ShapeOf(b).triangles| == |ShapeOf(a).triangles| + Wings(a, x)
    ensures parts.Some? <==> a.edges[x].constrained
    ensures parts.Some? ==> (
      && |parts.value| == 2
      && parts.value[0] in b.mesh.edges && Sig(b, parts.value[0]) == (SideOf(a, x).0, p, true)
      && parts.value[1] in b.mesh.edges && Sig(b, parts.value[1]) == (p, SideOf(a, x).1, true)
      && b.edges[parts.value[0]].refcount > 0 && b.edges[parts.value[1]].refcount > 0)
  {
    var k := a.edges[x].constrained;
    var a1, xp, pe := SplitAndFix(g, a, x, p, fuel);
    b := HoldParts(a1, xp, pe, k);
    VEdges.FrameCover(a1, b);
    parts := PartsList(k, xp, pe);
  }

  /**
   * What splitting a mesh triangle at P does to the points, the constrained
   * signatures, validity, the attached points and the number of triangles.
   */
  lemma TriangleShapeKept(a: Arena, t: TriId, p: PointId, b: Arena)
    requires Wf(a) && Simple(a) && t in a.mesh.triangles && Isolated(ShapeOf(a), p)
    requires ShapeOf(b) == SplitInThree(ShapeOf(a), TriCorners(a, t).0, TriCorners(a, t).1, TriCorners(a, t).2, p)
    ensures ShapeOf(b).points == ShapeOf(a).points && Constrained(ShapeOf(b)) == Constrained(ShapeOf(a))
    ensures ShapeValid(ShapeOf(a)) ==> ShapeValid(ShapeOf(b))
    ensures Attached(ShapeOf(b)) == Attached(ShapeOf(a)) + {p}
    ensures |ShapeOf(b).triangles| == |ShapeOf(a).triangles| + 2
  {
    var (pa, pb, pc) := TriCorners(a, t);
    SplitInThreeKeeps(ShapeOf(a), pa, pb, pc, p);
    TriangleSides(a, t);
    assert TriSigOf(a, t) in TriSigs(a);
    ListedSides(a);
    SplitInThreeAttached(ShapeOf(a), pa, pb, pc, p);
    SplitInThreeCount(ShapeOf(a), pa, pb, pc, p);
    if ShapeValid(ShapeOf(a)) {
      SplitInThreeValid(ShapeOf(a), pa, pb, pc, p);
    }
  }

  /**
   * p2tr_cdt_insert_point_into_triangle: the point P, which the caller has
   * added to the mesh unlinked and which lies inside triangle `t`, is
   * joined to the three corners, and flip-fix restores the Delaunay
   * property around it. The points and the constrained signatures stay as
   * they were, a valid mesh stays valid, P is attached to the triangulation
   * and there are two triangles more.
   */
  method InsertPointIntoTriangle(g: Geometry.Oracle, a: Arena, p: PointId, t: TriId, fuel: nat) returns (b: Arena)
    requires Sound(a) && t in a.mesh.triangles && p in a.mesh.points && Isolated(ShapeOf(a), p)
    requires p in a.points && Contains(a, g, t, a.points[p].c)
    ensures Sound(b)
    ensures ShapeOf(b).points == ShapeOf(a).points && Constrained(ShapeOf(b)) == Constrained(ShapeOf(a))
    ensures ShapeValid(ShapeOf(a)) ==> ShapeValid(ShapeOf(b))
    ensures Attached(ShapeOf(b)) == Attached(ShapeOf(a)) + {p}
    ensures |ShapeOf(b).triangles| == |ShapeOf(a).triangles| + 2
  {
    var a1, cands := SplitTriangle(a, t, p);
    VEdges.FrameCover(a, a1);
    TriangleShapeKept(a, t, p, a1);
    b := FixAround(g, a1, cands, fuel);
  }
}
