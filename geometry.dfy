/** Points of 3-space with exact real coordinates and the vector arithmetic
    the engine performs on numpy rows of three coordinates. */
module Geometry {
  datatype Point = Point(x: real, y: real, z: real)

  function Add(p: Point, q: Point): Point { Point(p.x + q.x, p.y + q.y, p.z + q.z) }

  function Sub(p: Point, q: Point): Point { Point(p.x - q.x, p.y - q.y, p.z - q.z) }

  function Scale(p: Point, s: real): Point { Point(p.x * s, p.y * s, p.z * s) }

  function Abs(r: real): real { if r < 0.0 then -r else r }

  /** `np.any(p > q)`: some coordinate of p exceeds the same coordinate of q. */
  predicate AnyGreater(p: Point, q: Point) { p.x > q.x || p.y > q.y || p.z > q.z }

  /** The pointwise order on points. */
  predicate LessEq(p: Point, q: Point) { p.x <= q.x && p.y <= q.y && p.z <= q.z }

  predicate Comparable(p: Point, q: Point) { LessEq(p, q) || LessEq(q, p) }

  /** The point a fraction t of the way from p to q. */
  function Lerp(p: Point, q: Point, t: real): Point { Add(p, Scale(Sub(q, p), t)) }

  /** r lies on the closed segment from p to q. */
  ghost predicate OnSegment(p: Point, q: Point, r: Point) {
    exists t: real :: 0.0 <= t <= 1.0 && r == Lerp(p, q, t)
  }

  lemma LerpReverse(p: Point, q: Point, t: real)
    ensures Lerp(q, p, 1.0 - t) == Lerp(p, q, t)
  {
    assert q.x + (p.x - q.x) * (1.0 - t) == p.x + (q.x - p.x) * t;
    assert q.y + (p.y - q.y) * (1.0 - t) == p.y + (q.y - p.y) * t;
    assert q.z + (p.z - q.z) * (1.0 - t) == p.z + (q.z - p.z) * t;
  }

  lemma EndpointsOnSegment(p: Point, q: Point)
    ensures OnSegment(p, q, p) && OnSegment(p, q, q)
  {
    assert p == Lerp(p, q, 0.0);
    assert q == Lerp(p, q, 1.0);
  }
}
