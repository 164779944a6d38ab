/**
 * Geometry primitives of LabelPoint: points, rings and the distance from a
 * point to a segment.
 *
 * Distances are SQUARED Euclidean distances. The original takes a square root
 * at the very end of the segment distance; the square root is monotone, so
 * every comparison made on distances (the minimum over a ring's edges, the
 * strict maximum of the grid scan, the test "greater than 0") gives the same
 * answer on squares.
 */
module Geometry {
  import opened RealArith

  /** A point of the plane; coordinates are exact reals. */
  datatype Point = Point(x: real, y: real)

  /** A ring: an implicitly closed sequence of vertices. */
  type Ring = seq<Point>

  /** Squared Euclidean distance between two points. */
  function DistSq(p: Point, q: Point): real
  {
    Norm2(p.x - q.x, p.y - q.y)
  }

  /** The point a + t * (b - a) of the line through a and b. */
  function Lerp(a: Point, b: Point, t: real): Point
  {
    Point(a.x + Mul(t, b.x - a.x), a.y + Mul(t, b.y - a.y))
  }

  /** Squared length of the segment from a to b (`len_sq` in the original). */
  function SquaredLength(a: Point, b: Point): real
  {
    Norm2(b.x - a.x, b.y - a.y)
  }

  /** The dot product of p - a with b - a (`dot` in the original). */
  function Dot(p: Point, a: Point, b: Point): real
  {
    Mul(p.x - a.x, b.x - a.x) + Mul(p.y - a.y, b.y - a.y)
  }

  /**
   * The projection parameter of p on the line through a and b: the dot
   * product divided by the squared length, or -1 when the segment has zero
   * length (then nothing is divided).
   */
  function ProjectionParam(p: Point, a: Point, b: Point): real
  {
    var lenSq := SquaredLength(a, b);
    if lenSq != 0.0 then Dot(p, a, b) / lenSq else -1.0
  }

  /** t clamped to the interval [0, 1]. */
  function Clamp01(t: real): (c: real)
    ensures 0.0 <= c <= 1.0
    ensures 0.0 <= t <= 1.0 ==> c == t
  {
    if t < 0.0 then 0.0 else if t > 1.0 then 1.0 else t
  }

  /**
   * pointToLineDistance: the squared distance from p to the segment from a to
   * b. The nearest point is a itself when the projection parameter is
   * negative, b when it exceeds 1, and the projection otherwise; in all three
   * cases it is the point of the segment at the clamped parameter.
   */
  function PointToLineDistance(p: Point, a: Point, b: Point): (d: real)
    ensures d >= 0.0
    ensures d == DistSq(p, Lerp(a, b, Clamp01(ProjectionParam(p, a, b))))
    ensures SquaredLength(a, b) == 0.0 ==> d == DistSq(p, a)
  {
    var param := ProjectionParam(p, a, b);
    var nearest :=
      if param < 0.0 then a
      else if param > 1.0 then b
      else Lerp(a, b, param);
    DistSq(p, nearest)
  }

  /** The point of parameter 0 is the start of the segment. */
  lemma LerpAtZero(a: Point, b: Point)
    ensures Lerp(a, b, 0.0) == a
  {
    ProductWithZero(b.x - a.x, 0.0);
    ProductWithZero(b.y - a.y, 0.0);
    MulCommutative(0.0, b.x - a.x);
    MulCommutative(0.0, b.y - a.y);
  }

  /** A segment whose ends differ has a positive squared length. */
  lemma DistinctEndsPositiveLength(a: Point, b: Point)
    requires a != b
    ensures SquaredLength(a, b) > 0.0
  {
    assert b.x - a.x < 0.0 || b.x - a.x > 0.0 || b.y - a.y < 0.0 || b.y - a.y > 0.0;
    NormPositive(b.x - a.x, b.y - a.y);
  }

  /**
   * Expanding the squared distance from p to the point of parameter t on the
   * line through a and b: |p - a|^2 - 2 t dot + t^2 len_sq.
   */
  lemma DistToLerpExpanded(p: Point, a: Point, b: Point, t: real)
    ensures DistSq(p, Lerp(a, b, t))
         == DistSq(p, a) - 2.0 * Mul(t, Dot(p, a, b)) + Mul(Sq(t), SquaredLength(a, b))
  {
    var A, B, C, D := p.x - a.x, p.y - a.y, b.x - a.x, b.y - a.y;
    var q := Lerp(a, b, t);
    assert p.x - q.x == A - Mul(t, C);
    assert p.y - q.y == B - Mul(t, D);
    SquareOfDifference(A, C, t);
    SquareOfDifference(B, D, t);
    assert Dot(p, a, b) == Mul(A, C) + Mul(B, D);
    Distribute(t, Mul(A, C), Mul(B, D));
    Distribute(Sq(t), Sq(C), Sq(D));
  }

  /** Clamping param to [0, 1] gives the point of [0, 1] nearest to it. */
  lemma ClampIsNearest(param: real, t: real)
    requires 0.0 <= t <= 1.0
    ensures Sq(Clamp01(param) - param) <= Sq(t - param)
  {
    var t0 := Clamp01(param);
    if param < 0.0 {
      SquareMonotone(t0 - param, t - param);
    } else if param > 1.0 {
      SquareMonotone(param - t0, param - t);
      SquareOfNegation(t0 - param);
      SquareOfNegation(t - param);
    } else {
      SquareNonNegative(t - param);
      assert Sq(t0 - param) == 0.0;
    }
  }

  /**
   * The step that closes SegmentDistanceIsMinimal: two distances written
   * around the same base and scale, ordered by their squares.
   */
  lemma CompareCompleted(d: real, d0: real, base: real, len: real, q: real, q0: real, s: real)
    requires len > 0.0 && q0 <= q
    requires d == base + Mul(len, q - s) && d0 == base + Mul(len, q0 - s)
    ensures d0 <= d
  {
    ScaleMonotone(len, q0 - s, q - s);
  }

  /**
   * The segment distance is the least squared distance from p to any point of
   * the segment: clamping the projection parameter to [0, 1] picks the
   * minimiser of a convex quadratic on that interval.
   */
  lemma SegmentDistanceIsMinimal(p: Point, a: Point, b: Point, t: real)
    requires 0.0 <= t <= 1.0
    ensures PointToLineDistance(p, a, b) <= DistSq(p, Lerp(a, b, t))
  {
    if a == b {
      DegenerateSegmentDistance(p, a, t);
    } else {
      ProperSegmentIsMinimal(p, a, b, t);
    }
  }

  /** On a zero-length segment every parameter gives the point itself. */
  lemma DegenerateSegmentDistance(p: Point, a: Point, t: real)
    ensures PointToLineDistance(p, a, a) == DistSq(p, Lerp(a, a, t)) == DistSq(p, a)
  {
    ProductWithZero(t, a.x - a.x);
    ProductWithZero(t, a.y - a.y);
    var t0 := Clamp01(ProjectionParam(p, a, a));
    ProductWithZero(t0, a.x - a.x);
    ProductWithZero(t0, a.y - a.y);
  }

  lemma ProperSegmentIsMinimal(p: Point, a: Point, b: Point, t: real)
    requires 0.0 <= t <= 1.0 && a != b
    ensures PointToLineDistance(p, a, b) <= DistSq(p, Lerp(a, b, t))
  {
    DistinctEndsPositiveLength(a, b);
    var len := SquaredLength(a, b);
    var param := ProjectionParam(p, a, b);
    var t0 := Clamp01(param);
    DivideThenMultiply(Dot(p, a, b), len);
    DistToLerpExpanded(p, a, b, t);
    DistToLerpExpanded(p, a, b, t0);
    CompleteSquare(len, param, t);
    CompleteSquare(len, param, t0);
    ClampIsNearest(param, t);
    CompareCompleted(DistSq(p, Lerp(a, b, t)), DistSq(p, Lerp(a, b, t0)), DistSq(p, a),
                     len, Sq(t - param), Sq(t0 - param), Sq(param));
  }
}
