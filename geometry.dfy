/**
  Plane geometry used by the editor's hit testing: the closest point of a
  segment to a point (pointToLineDistance) and the inclusive box test.
  Coordinates are exact reals; distances are kept squared, so "distance <= tol"
  is written `WithinDistance`.
*/
module Geometry {

  datatype Point = Point(x: real, y: real)

  /** The point a fraction `t` of the way from `a` to `b`. */
  function Lerp(a: Point, b: Point, t: real): Point {
    Point(a.x + t * (b.x - a.x), a.y + t * (b.y - a.y))
  }

  function Shift(p: Point, dx: real, dy: real): Point {
    Point(p.x + dx, p.y + dy)
  }

  /** The square of a real. */
  function Sq(r: real): real {
    r * r
  }

  // The solver reasons unreliably about a square once it has been named, so the
  // sign facts below go through a product of two separate factors.

  function Mul(u: real, v: real): real {
    u * v
  }

  lemma MulPos(u: real, v: real)
    requires (u > 0.0 && v > 0.0) || (u < 0.0 && v < 0.0)
    ensures Mul(u, v) > 0.0
  {
  }

  lemma SqPos(r: real)
    requires r > 0.0 || r < 0.0
    ensures Sq(r) > 0.0
  {
    MulPos(r, r);
    assert Sq(r) == Mul(r, r);
  }

  lemma SqNonNeg(r: real)
    ensures Sq(r) >= 0.0
  {
  }

  lemma MulCancel(u: real, v: real, k: real)
    requires k > 0.0 && u * k == v * k
    ensures u == v
  {
    if u > v {
      MulPos(u - v, k);
    } else if u < v {
      MulPos(v - u, k);
    }
  }

  lemma MulSign(u: real, v: real)
    requires v > 0.0
    ensures u < 0.0 ==> u * v < 0.0
    ensures u > 0.0 ==> u * v > 0.0
  {
  }

  lemma DivTimes(n: real, d: real)
    requires d > 0.0
    ensures (n / d) * d == n
  {
  }

  lemma QuotientBelow(n: real, d: real)
    requires d > 0.0 && n / d < 0.0
    ensures n < 0.0
  {
    DivTimes(n, d);
    MulSign(n / d, d);
  }

  lemma QuotientAbove(n: real, d: real)
    requires d > 0.0 && n / d > 1.0
    ensures n > d
  {
    DivTimes(n, d);
    MulSign(n / d - 1.0, d);
    assert (n / d - 1.0) * d == (n / d) * d - d;
  }

  lemma OneMinusQuotient(n: real, d: real)
    requires d > 0.0
    ensures (d - n) / d == 1.0 - n / d
  {
    DivTimes(n, d);
    DivTimes(d - n, d);
    assert (1.0 - n / d) * d == d - (n / d) * d;
    MulCancel((d - n) / d, 1.0 - n / d, d);
  }

  /** Squared Euclidean distance. */
  function DistSq(p: Point, q: Point): (d: real)
    ensures d >= 0.0
  {
    SqNonNeg(p.x - q.x);
    SqNonNeg(p.y - q.y);
    Sq(p.x - q.x) + Sq(p.y - q.y)
  }

  /** Distinct points are a positive squared distance apart. */
  lemma DistSqPos(p: Point, q: Point)
    requires p != q
    ensures DistSq(p, q) > 0.0
  {
    SqNonNeg(p.x - q.x);
    SqNonNeg(p.y - q.y);
    if p.x != q.x {
      SqPos(p.x - q.x);
    } else {
      SqPos(p.y - q.y);
    }
  }

  lemma DistSqSelf(p: Point)
    ensures DistSq(p, p) == 0.0
  {
    assert Sq(p.x - p.x) == 0.0 && Sq(p.y - p.y) == 0.0;
  }

  /** A zero-length segment leaves the projection parameter at its initial -1. */
  lemma DegenerateProjection(p: Point, a: Point, b: Point)
    ensures a == b ==> Projection(p, a, b) == -1.0
  {
    if a == b {
      DistSqSelf(a);
    }
  }

  lemma DistSqSymmetric(p: Point, q: Point)
    ensures DistSq(p, q) == DistSq(q, p)
  {
    assert Sq(p.x - q.x) == Sq(q.x - p.x);
    assert Sq(p.y - q.y) == Sq(q.y - p.y);
  }

  /** The dot product of p - a with b - a (`dot` of pointToLineDistance). */
  function Dot(p: Point, a: Point, b: Point): real {
    (p.x - a.x) * (b.x - a.x) + (p.y - a.y) * (b.y - a.y)
  }

  /**
    The unclamped projection parameter: dot / lenSq, or -1 when the segment has
    length zero. lenSq is never negative (DistSq), so the source's test
    `lenSq !== 0` is written `lenSq > 0`.
  */
  function Projection(p: Point, a: Point, b: Point): real {
    var lenSq := DistSq(b, a);
    if lenSq > 0.0 then Dot(p, a, b) / lenSq else -1.0
  }

  lemma LerpEnds(a: Point, b: Point)
    ensures Lerp(a, b, 0.0) == a && Lerp(a, b, 1.0) == b
  {
  }

  /**
    The point (xx, yy) of pointToLineDistance: the projection parameter is
    clamped to [0, 1], so the point lies on the segment; a zero-length segment
    yields its start point.
  */
  function ClosestPoint(p: Point, a: Point, b: Point): (q: Point)
    ensures exists t :: 0.0 <= t <= 1.0 && q == Lerp(a, b, t)
    ensures a == b ==> q == a
  {
    LerpEnds(a, b);
    DegenerateProjection(p, a, b);
    var param := Projection(p, a, b);
    if param < 0.0 then a
    else if param > 1.0 then b
    else Lerp(a, b, param)
  }

  /** One coordinate of DistAlong. */
  lemma SqAlong(u: real, c: real, s: real)
    ensures Sq(u - s * c) == Along(Sq(u), u * c, Sq(c), s)
  {
  }

  /** Along is additive in its first three arguments. */
  lemma AlongAdd(d1: real, dot1: real, len1: real, d2: real, dot2: real, len2: real, s: real)
    ensures Along(d1, dot1, len1, s) + Along(d2, dot2, len2, s) == Along(d1 + d2, dot1 + dot2, len1 + len2, s)
  {
    assert 2.0 * s * (dot1 + dot2) == 2.0 * s * dot1 + 2.0 * s * dot2;
    assert s * s * (len1 + len2) == s * s * len1 + s * s * len2;
  }

  /** The quadratic d0 - 2 s dot + s^2 len whose least value over [0, 1] the projection finds. */
  function Along(d0: real, dot: real, len: real, s: real): real {
    d0 - 2.0 * s * dot + s * s * len
  }

  /** The plane version of SqAlong: both coordinates at once. */
  lemma AlongPlane(u1: real, c1: real, u2: real, c2: real, s: real)
    ensures Sq(u1 - s * c1) + Sq(u2 - s * c2) == Along(Sq(u1) + Sq(u2), u1 * c1 + u2 * c2, Sq(c1) + Sq(c2), s)
  {
    SqAlong(u1, c1, s);
    SqAlong(u2, c2, s);
    AlongAdd(Sq(u1), u1 * c1, Sq(c1), Sq(u2), u2 * c2, Sq(c2), s);
  }

  lemma LerpOffset(p: Point, a: Point, b: Point, s: real)
    ensures DistSq(p, Lerp(a, b, s)) == Sq((p.x - a.x) - s * (b.x - a.x)) + Sq((p.y - a.y) - s * (b.y - a.y))
  {
    var q := Lerp(a, b, s);
    assert p.x - q.x == (p.x - a.x) - s * (b.x - a.x);
    assert p.y - q.y == (p.y - a.y) - s * (b.y - a.y);
  }

  /** The squared distance from `p` to the point at parameter `s` of the line through `a` and `b`. */
  lemma DistAlong(p: Point, a: Point, b: Point, s: real)
    ensures DistSq(p, Lerp(a, b, s)) == Along(DistSq(p, a), Dot(p, a, b), DistSq(b, a), s)
  {
    LerpOffset(p, a, b, s);
    AlongPlane(p.x - a.x, b.x - a.x, p.y - a.y, b.y - a.y, s);
  }

  // The three cases of the least value of f(s) = a2 - 2 s dot + s^2 len over 0 <= s <= 1.

  lemma BelowStart(d0: real, s: real, dot: real, len: real)
    requires 0.0 <= s && dot < 0.0 && len > 0.0
    ensures Along(d0, dot, len, s) >= d0
  {
    assert s * s >= 0.0;
    assert s * s * len >= 0.0;
    assert s * dot <= 0.0;
  }

  lemma BeyondEnd(d0: real, s: real, dot: real, len: real)
    requires 0.0 <= s <= 1.0 && dot > len > 0.0
    ensures Along(d0, dot, len, s) >= Along(d0, dot, len, 1.0)
  {
    var g := (s + 1.0) * len - 2.0 * dot;
    assert (s + 1.0) * len <= 2.0 * len;
    assert g < 0.0;
    assert (s - 1.0) * g >= 0.0;
    assert Along(d0, dot, len, s) - Along(d0, dot, len, 1.0) == (s - 1.0) * g;
  }

  lemma Interior(d0: real, s: real, t: real, dot: real, len: real)
    requires len > 0.0 && dot == t * len
    ensures Along(d0, dot, len, s) >= Along(d0, dot, len, t)
  {
    assert (s - t) * (s - t) >= 0.0;
    assert (s - t) * (s - t) * len >= 0.0;
    assert Along(d0, t * len, len, s) - Along(d0, t * len, len, t) == (s - t) * (s - t) * len;
  }

  /** A projection before the start: the start is nearest. */
  lemma NearestBelow(p: Point, a: Point, b: Point, s: real)
    requires 0.0 <= s <= 1.0 && a != b && Projection(p, a, b) < 0.0
    ensures DistSq(p, a) <= DistSq(p, Lerp(a, b, s))
  {
    DistSqPos(b, a);
    QuotientBelow(Dot(p, a, b), DistSq(b, a));
    BelowStart(DistSq(p, a), s, Dot(p, a, b), DistSq(b, a));
    DistAlong(p, a, b, s);
  }

  /** A projection past the end: the end is nearest. */
  lemma NearestBeyond(p: Point, a: Point, b: Point, s: real)
    requires 0.0 <= s <= 1.0 && a != b && Projection(p, a, b) > 1.0
    ensures DistSq(p, b) <= DistSq(p, Lerp(a, b, s))
  {
    DistSqPos(b, a);
    QuotientAbove(Dot(p, a, b), DistSq(b, a));
    BeyondEnd(DistSq(p, a), s, Dot(p, a, b), DistSq(b, a));
    DistAlong(p, a, b, s);
    DistAlong(p, a, b, 1.0);
    LerpEnds(a, b);
  }

  /** A projection on the segment: the foot point is nearest. */
  lemma NearestInterior(p: Point, a: Point, b: Point, s: real)
    requires 0.0 <= s <= 1.0 && a != b && 0.0 <= Projection(p, a, b) <= 1.0
    ensures DistSq(p, Lerp(a, b, Projection(p, a, b))) <= DistSq(p, Lerp(a, b, s))
  {
    DistSqPos(b, a);
    var t := Projection(p, a, b);
    DivTimes(Dot(p, a, b), DistSq(b, a));
    Interior(DistSq(p, a), s, t, Dot(p, a, b), DistSq(b, a));
    DistAlong(p, a, b, s);
    DistAlong(p, a, b, t);
  }

  /** No point of the segment is closer to `p` than ClosestPoint. */
  lemma ClosestIsNearest(p: Point, a: Point, b: Point, s: real)
    requires 0.0 <= s <= 1.0
    ensures DistSq(p, ClosestPoint(p, a, b)) <= DistSq(p, Lerp(a, b, s))
  {
    if a == b {
      assert Lerp(a, b, s) == a;
    } else {
      var t := Projection(p, a, b);
      if t < 0.0 {
        NearestBelow(p, a, b, s);
      } else if t > 1.0 {
        NearestBeyond(p, a, b, s);
      } else {
        NearestInterior(p, a, b, s);
      }
    }
  }

  lemma ClosestIsNearestAll(p: Point, a: Point, b: Point)
    ensures forall s :: 0.0 <= s <= 1.0 ==> DistSq(p, ClosestPoint(p, a, b)) <= DistSq(p, Lerp(a, b, s))
  {
    forall s | 0.0 <= s <= 1.0
      ensures DistSq(p, ClosestPoint(p, a, b)) <= DistSq(p, Lerp(a, b, s))
    {
      ClosestIsNearest(p, a, b, s);
    }
  }

  /**
    The square of pointToLineDistance(p, a, b): the least squared distance from
    `p` to a point of the segment from `a` to `b`, attained on the segment.
  */
  function SegmentDistSq(p: Point, a: Point, b: Point): (d: real)
    ensures d >= 0.0
    ensures exists t :: 0.0 <= t <= 1.0 && d == DistSq(p, Lerp(a, b, t))
    ensures forall s :: 0.0 <= s <= 1.0 ==> d <= DistSq(p, Lerp(a, b, s))
    ensures d <= DistSq(p, a) && d <= DistSq(p, b)
  {
    ClosestIsNearestAll(p, a, b);
    LerpEnds(a, b);
    DistSq(p, ClosestPoint(p, a, b))
  }

  /** `pointToLineDistance(p, a, b) <= tol`, without the square root. */
  predicate WithinDistance(p: Point, a: Point, b: Point, tol: real) {
    tol >= 0.0 && SegmentDistSq(p, a, b) <= tol * tol
  }

  /** The distance test holds exactly when some point of the segment lies within `tol` of `p`. */
  lemma WithinDistanceMeaning(p: Point, a: Point, b: Point, tol: real)
    ensures WithinDistance(p, a, b, tol) <==>
      tol >= 0.0 && exists t :: 0.0 <= t <= 1.0 && DistSq(p, Lerp(a, b, t)) <= tol * tol
  {
    if tol >= 0.0 && exists t :: 0.0 <= t <= 1.0 && DistSq(p, Lerp(a, b, t)) <= tol * tol {
      var t :| 0.0 <= t <= 1.0 && DistSq(p, Lerp(a, b, t)) <= tol * tol;
      assert SegmentDistSq(p, a, b) <= DistSq(p, Lerp(a, b, t));
    }
  }

  /** Seen from the other end, the dot product is what the first one leaves of lenSq. */
  lemma DotFromOtherEnd(p: Point, a: Point, b: Point)
    ensures Dot(p, b, a) == DistSq(b, a) - Dot(p, a, b)
  {
    assert Sq(b.x - a.x) == (b.x - a.x) * (b.x - a.x);
    assert Sq(b.y - a.y) == (b.y - a.y) * (b.y - a.y);
  }

  lemma ProjectionFromOtherEnd(p: Point, a: Point, b: Point)
    requires a != b
    ensures Projection(p, b, a) == 1.0 - Projection(p, a, b)
  {
    DistSqPos(b, a);
    DistSqSymmetric(a, b);
    DotFromOtherEnd(p, a, b);
    OneMinusQuotient(Dot(p, a, b), DistSq(b, a));
  }

  lemma LerpReverse(a: Point, b: Point, t: real)
    ensures Lerp(b, a, 1.0 - t) == Lerp(a, b, t)
  {
    assert b.x + (1.0 - t) * (a.x - b.x) == a.x + t * (b.x - a.x);
    assert b.y + (1.0 - t) * (a.y - b.y) == a.y + t * (b.y - a.y);
  }

  /** Exchanging the endpoints yields the same closest point, so the distance is symmetric. */
  lemma ClosestPointSymmetric(p: Point, a: Point, b: Point)
    ensures ClosestPoint(p, a, b) == ClosestPoint(p, b, a)
    ensures SegmentDistSq(p, a, b) == SegmentDistSq(p, b, a)
  {
    if a != b {
      ProjectionFromOtherEnd(p, a, b);
      var t := Projection(p, a, b);
      if 0.0 <= t <= 1.0 {
        LerpReverse(a, b, t);
      }
    }
  }

  lemma ProjectionShift(p: Point, a: Point, b: Point, dx: real, dy: real)
    ensures Projection(Shift(p, dx, dy), Shift(a, dx, dy), Shift(b, dx, dy)) == Projection(p, a, b)
  {
    var p', a', b' := Shift(p, dx, dy), Shift(a, dx, dy), Shift(b, dx, dy);
    assert p'.x - a'.x == p.x - a.x && p'.y - a'.y == p.y - a.y;
    assert b'.x - a'.x == b.x - a.x && b'.y - a'.y == b.y - a.y;
    assert Dot(p', a', b') == Dot(p, a, b);
    DistSqShift(b, a, dx, dy);
  }

  lemma LerpShift(a: Point, b: Point, t: real, dx: real, dy: real)
    ensures Lerp(Shift(a, dx, dy), Shift(b, dx, dy), t) == Shift(Lerp(a, b, t), dx, dy)
  {
    assert (b.x + dx) - (a.x + dx) == b.x - a.x;
    assert (b.y + dy) - (a.y + dy) == b.y - a.y;
  }

  lemma DistSqShift(p: Point, q: Point, dx: real, dy: real)
    ensures DistSq(Shift(p, dx, dy), Shift(q, dx, dy)) == DistSq(p, q)
  {
    assert (p.x + dx) - (q.x + dx) == p.x - q.x;
    assert (p.y + dy) - (q.y + dy) == p.y - q.y;
  }

  /** Moving the point and the segment by the same offset moves the closest point by that offset. */
  lemma ClosestPointShift(p: Point, a: Point, b: Point, dx: real, dy: real)
    ensures ClosestPoint(Shift(p, dx, dy), Shift(a, dx, dy), Shift(b, dx, dy)) == Shift(ClosestPoint(p, a, b), dx, dy)
    ensures SegmentDistSq(Shift(p, dx, dy), Shift(a, dx, dy), Shift(b, dx, dy)) == SegmentDistSq(p, a, b)
  {
    ProjectionShift(p, a, b, dx, dy);
    LerpShift(a, b, Projection(p, a, b), dx, dy);
    DistSqShift(p, ClosestPoint(p, a, b), dx, dy);
  }

  /** The inclusive box test of isPointInElement's fallback branch. */
  predicate InBox(p: Point, x: real, y: real, width: real, height: real) {
    x <= p.x <= x + width && y <= p.y <= y + height
  }
}
