/** Positions and the distance tests of the area-of-interest engine.
    Coordinates are exact reals: the engine's single-precision floats and
    their rounding are not modelled. */
module Geometry {

  /** A point in space, the engine's `float[3]`. */
  datatype Position = Position(x: real, y: real, z: real)

  const Origin: Position := Position(0.0, 0.0, 0.0)

  /** The interest radius and the thresholds derived from it. */
  const AOI_RADIUS: real := 10.0
  /** Squared interest radius: closer than this is a MOVE. */
  const AOI_RADIUS2: real := AOI_RADIUS * AOI_RADIUS
  /** Squared micro-movement threshold, a quarter of the squared radius. */
  const AOI_IS_NEAR: real := AOI_RADIUS2 * 0.25
  /** Leave multiplier on the squared radius: farther than this is a LEAVE. */
  const AOI_IS_LEAVE: real := 4.0
  const AOI_LEAVE2: real := AOI_RADIUS2 * AOI_IS_LEAVE

  /** Squared Euclidean distance between two points. */
  function Dist2(p: Position, q: Position): (d: real)
    ensures d >= 0.0
  {
    var dx, dy, dz := p.x - q.x, p.y - q.y, p.z - q.z;
    SquareNonNegative(dx);
    SquareNonNegative(dy);
    SquareNonNegative(dz);
    Square(dx) + Square(dy) + Square(dz)
  }

  function Square(a: real): real
  {
    a * a
  }

  lemma MulPositive(a: real, b: real)
    requires a > 0.0 && b > 0.0
    ensures a * b > 0.0
  {
  }

  /** The square of a real is never negative. */
  lemma SquareNonNegative(a: real)
    ensures Square(a) >= 0.0
  {
    if a > 0.0 {
      MulPositive(a, a);
    } else if a < 0.0 {
      MulPositive(-a, -a);
      assert (-a) * (-a) == a * a;
    }
  }

  /** The squared distance does not depend on the order of its arguments. */
  lemma Dist2Symmetric(p: Position, q: Position)
    ensures Dist2(p, q) == Dist2(q, p)
  {
    assert Square(p.x - q.x) == Square(q.x - p.x);
    assert Square(p.y - q.y) == Square(q.y - p.y);
    assert Square(p.z - q.z) == Square(q.z - p.z);
  }

  /** A movement is "near" (a micro-movement) when its squared length is
      below a quarter of the squared interest radius. */
  predicate IsNear(p: Position, q: Position)
  {
    Dist2(p, q) < AOI_IS_NEAR
  }

  lemma IsNearProperties(p: Position, q: Position)
    ensures IsNear(p, p)
    ensures IsNear(p, q) == IsNear(q, p)
    ensures IsNear(p, q) <==> Dist2(p, q) < 25.0
  {
    Dist2Symmetric(p, q);
  }

  /** How a candidate watcher/marker distance is judged: inside the radius,
      beyond the leave distance, or in the band between them. */
  datatype Zone = Inside | Beyond | Band

  function ZoneOf(d2: real): (z: Zone)
    ensures z == Inside <==> d2 < 100.0
    ensures z == Beyond <==> d2 > 400.0
    ensures z == Band <==> 100.0 <= d2 <= 400.0
  {
    if d2 < AOI_RADIUS2 then Inside
    else if d2 > AOI_LEAVE2 then Beyond
    else Band
  }
}
