/**
 * The floating-point geometry of the refinement layer, taken as given. The C
 * code decides these questions with rounding arithmetic on doubles; the
 * model only asks them, through an oracle the caller supplies, and never
 * relies on any property of the answers.
 */
module Geometry {
  import opened Topology

  /**
   * inTriangle(p, a, b, c): p lies inside triangle abc or on its outline.
   * onSegment(p, a, b): p lies on segment ab, strictly between a and b.
   * inCircle(a, b, c, d): d lies strictly inside the circle through a, b and c.
   */
  datatype Oracle = Oracle(inTriangle: (Vector2, Vector2, Vector2, Vector2) -> bool,
                           onSegment: (Vector2, Vector2, Vector2) -> bool,
                           inCircle: (Vector2, Vector2, Vector2, Vector2) -> bool)
}
