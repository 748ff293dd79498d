/**
 * Plane geometry behind the field's hit tests (src/components/Field.tsx): the distance
 * from the pointer to a route segment, and the pointer-in-circle tests. Distances are
 * compared squared: `sqrt(d) < r` holds exactly when `d < r * r` for `d >= 0`, `r >= 0`.
 */
module FieldGeometry {
  import opened Basics

  function Dot(u: Point, v: Point): real
  {
    u.x * v.x + u.y * v.y
  }

  function NormSq(v: Point): real
  {
    Dot(v, v)
  }

  /** The squared Euclidean distance between two points. */
  function DistSq(p: Point, q: Point): real
  {
    NormSq(p.Minus(q))
  }

  function Scale(k: real, v: Point): Point
  {
    Point(k * v.x, k * v.y)
  }

  /** The point a fraction `t` of the way from `a` to `b`. */
  function Lerp(a: Point, b: Point, t: real): Point
  {
    a.Plus(Scale(t, b.Minus(a)))
  }

  /** `param` of `pointToLineDistance`: the projection of `p` onto the line, or -1 for a zero-length segment. */
  function ProjectionParam(p: Point, a: Point, b: Point): real
  {
    var lenSq := NormSq(b.Minus(a));
    if lenSq != 0.0 then Dot(p.Minus(a), b.Minus(a)) / lenSq else -1.0
  }

  /** The projection parameter clamped to the segment: below 0 counts as 0, above 1 as 1. */
  function ClampedParam(p: Point, a: Point, b: Point): (t: real)
    ensures 0.0 <= t <= 1.0
    ensures 0.0 <= ProjectionParam(p, a, b) <= 1.0 ==> t == ProjectionParam(p, a, b)
  {
    var param := ProjectionParam(p, a, b);
    if param < 0.0 then 0.0 else if param > 1.0 then 1.0 else param
  }

  /** `(xx, yy)` of `pointToLineDistance`: the start below the segment, the end beyond it, else the projection. */
  function ClosestPoint(p: Point, a: Point, b: Point): (c: Point)
    ensures c == Lerp(a, b, ClampedParam(p, a, b))
    ensures a == b ==> c == a
  {
    var param := ProjectionParam(p, a, b);
    if param < 0.0 then
      assert Lerp(a, b, 0.0) == a;
      a
    else if param > 1.0 then
      assert Lerp(a, b, 1.0) == b;
      b
    else
      Lerp(a, b, param)
  }

  /** The square of `pointToLineDistance(p, a, b)`. */
  function SegmentDistSq(p: Point, a: Point, b: Point): real
  {
    DistSq(p, ClosestPoint(p, a, b))
  }

  /** A zero-length segment (the parameter stays -1) is measured to its start point. */
  lemma ZeroLengthSegment(p: Point, a: Point)
    ensures ProjectionParam(p, a, a) == -1.0
    ensures SegmentDistSq(p, a, a) == DistSq(p, a)
  {
  }

  /** A click hits a route segment when it lies within distance 5 of it (`distance < 5`). */
  const LineHitDistance: real := 5.0

  predicate NearSegment(p: Point, a: Point, b: Point)
  {
    SegmentDistSq(p, a, b) < LineHitDistance * LineHitDistance
  }

  /** The squared distance from `p` to the point a fraction `t` along the segment, as a quadratic in `t`. */
  lemma DistAlongSegment(p: Point, a: Point, b: Point, t: real)
    ensures DistSq(p, Lerp(a, b, t))
            == NormSq(p.Minus(a)) - 2.0 * t * Dot(p.Minus(a), b.Minus(a)) + t * t * NormSq(b.Minus(a))
  {
    var w, d := p.Minus(a), b.Minus(a);
    assert p.Minus(Lerp(a, b, t)) == Point(w.x - t * d.x, w.y - t * d.y);
  }

  lemma MulNonNeg(x: real, y: real)
    requires x >= 0.0 && y >= 0.0
    ensures x * y >= 0.0
  {
  }

  lemma MulNonPos(x: real, y: real)
    requires x <= 0.0 && y <= 0.0
    ensures x * y >= 0.0
  {
  }

  lemma SquareNonNeg(x: real)
    ensures x * x >= 0.0
  {
    if x >= 0.0 { MulNonNeg(x, x); } else { MulNonPos(x, x); }
  }

  lemma SquaresNonNeg(x: real, y: real)
    ensures x * x + y * y >= 0.0
  {
    SquareNonNeg(x);
    SquareNonNeg(y);
  }

  lemma QuadraticDifference(w: real, m: real, l: real, c: real, t: real)
    ensures (w - 2.0 * t * m + t * t * l) - (w - 2.0 * c * m + c * c * l) == (t - c) * ((t + c) * l - 2.0 * m)
  {
  }

  lemma DivTimes(m: real, l: real)
    requires l > 0.0
    ensures (m / l) * l == m
  {
  }

  /**
   * On [0, 1] the quadratic `w - 2 t m + t^2 l` (with `l > 0`) is least at `m / l` clamped
   * to [0, 1]: its difference from the value at `c` factors as `(t - c)((t + c) l - 2 m)`.
   */
  lemma ClampedMinimum(w: real, m: real, l: real, c: real, t: real)
    requires l > 0.0 && 0.0 <= t <= 1.0
    requires c == if m / l < 0.0 then 0.0 else if m / l > 1.0 then 1.0 else m / l
    ensures w - 2.0 * c * m + c * c * l <= w - 2.0 * t * m + t * t * l
  {
    QuadraticDifference(w, m, l, c, t);
    var q := m / l;
    DivTimes(m, l);
    if q < 0.0 {
      MulNonNeg(-q, l);
      MulNonNeg(t, l);
      MulNonNeg(t, t * l - 2.0 * m);
    } else if q > 1.0 {
      MulNonNeg(q - 1.0, l);
      MulNonNeg(1.0 - t, l);
      MulNonPos(t - 1.0, (t + 1.0) * l - 2.0 * m);
    } else {
      assert (t - c) * ((t + c) * l - 2.0 * m) == ((t - c) * (t - c)) * l;
      SquareNonNeg(t - c);
      MulNonNeg((t - c) * (t - c), l);
    }
  }

  lemma LerpDegenerate(a: Point, t: real)
    ensures Lerp(a, a, t) == a
  {
    assert a.Minus(a) == Point(0.0, 0.0);
    assert Scale(t, Point(0.0, 0.0)) == Point(0.0, 0.0);
  }

  /**
   * `(xx, yy)` is the nearest point of the segment: no point a fraction `t` in [0, 1] along
   * it is closer. Stated for the two cases `pointToLineDistance` tells apart: a segment of
   * zero length and one whose squared length is non-zero.
   */
  lemma ClosestPointIsNearest(p: Point, a: Point, b: Point, t: real)
    requires a == b || NormSq(b.Minus(a)) != 0.0
    requires 0.0 <= t <= 1.0
    ensures SegmentDistSq(p, a, b) <= DistSq(p, Lerp(a, b, t))
  {
    if a == b {
      LerpDegenerate(a, t);
    } else {
      var d := b.Minus(a);
      SquaresNonNeg(d.x, d.y);
      var c := ClampedParam(p, a, b);
      DistAlongSegment(p, a, b, c);
      DistAlongSegment(p, a, b, t);
      ClampedMinimum(NormSq(p.Minus(a)), Dot(p.Minus(a), d), NormSq(d), c, t);
    }
  }

  /** A click hits a route segment exactly when some point of the segment lies closer than 5. */
  lemma NearSegmentExactly(p: Point, a: Point, b: Point)
    requires a == b || NormSq(b.Minus(a)) != 0.0
    ensures NearSegment(p, a, b)
            <==> exists t :: 0.0 <= t <= 1.0 && DistSq(p, Lerp(a, b, t)) < LineHitDistance * LineHitDistance
  {
    if NearSegment(p, a, b) {
      var t := ClampedParam(p, a, b);
      assert DistSq(p, Lerp(a, b, t)) < LineHitDistance * LineHitDistance;
    }
    if exists t :: 0.0 <= t <= 1.0 && DistSq(p, Lerp(a, b, t)) < LineHitDistance * LineHitDistance {
      var t :| 0.0 <= t <= 1.0 && DistSq(p, Lerp(a, b, t)) < LineHitDistance * LineHitDistance;
      ClosestPointIsNearest(p, a, b, t);
    }
  }

  /** `Math.sqrt(dx ** 2 + dy ** 2) <= r`: the click lies in the closed disc of radius `r` around `c`. */
  predicate WithinRadius(p: Point, c: Point, r: real)
  {
    r >= 0.0 && DistSq(p, c) <= r * r
  }
}
