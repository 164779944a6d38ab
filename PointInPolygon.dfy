/**
 * isInside: the crossing-number point-in-polygon test.
 *
 * Each edge joins vertex i to the vertex before it (the last vertex for
 * i == 0). A horizontal ray from the point to the right crosses an edge when
 * the point's y lies in the half-open range between the edge's end ordinates
 * and the point lies left of the edge at that height; the point is inside when
 * the number of crossed edges is odd.
 */
module PointInPolygon {
  import opened RealArith
  import opened Geometry

  /** The index before i in a ring of n vertices, wrapping from 0 to n - 1. */
  function Prev(n: nat, i: nat): (j: nat)
    requires i < n
    ensures j < n
    ensures i == 0 ==> j == n - 1
    ensures i > 0 ==> j + 1 == i
  {
    if i == 0 then n - 1 else i - 1
  }

  /**
   * The half-open test: y lies in [pi.y, pj.y) or in [pj.y, pi.y). It can
   * only hold when the edge is not horizontal.
   */
  predicate StraddlesY(p: Point, pi: Point, pj: Point)
  {
    (pi.y <= p.y && p.y < pj.y) || (pj.y <= p.y && p.y < pi.y)
  }

  /** The abscissa of the edge from pi to pj at the ordinate of p. */
  function CrossingX(p: Point, pi: Point, pj: Point): real
    requires StraddlesY(p, pi, pj)
  {
    Mul(pj.x - pi.x, p.y - pi.y) / (pj.y - pi.y) + pi.x
  }

  /** Whether the ray from p crosses the edge from pi to pj. */
  predicate Crosses(p: Point, pi: Point, pj: Point)
  {
    StraddlesY(p, pi, pj) && p.x < CrossingX(p, pi, pj)
  }

  /** The edge ending at vertex i crosses the ray from p. */
  predicate EdgeCrosses(p: Point, ring: Ring, i: nat)
    requires i < |ring|
  {
    Crosses(p, ring[i], ring[Prev(|ring|, i)])
  }

  /** The number of edges among the first k that the ray from p crosses. */
  function CrossingCount(p: Point, ring: Ring, k: nat): (n: nat)
    requires k <= |ring|
    ensures n <= k
  {
    if k == 0 then 0
    else CrossingCount(p, ring, k - 1) + (if EdgeCrosses(p, ring, k - 1) then 1 else 0)
  }

  /** The crossing-number rule: p is inside when an odd number of edges is crossed. */
  predicate Inside(p: Point, ring: Ring)
  {
    CrossingCount(p, ring, |ring|) % 2 == 1
  }

  /**
   * isInside. The flag c is toggled for every edge (ring[j], ring[i]) that
   * passes the half-open test and then the comparison with the edge's
   * abscissa; the division happens only once the half-open test has held, so
   * its divisor pj.y - pi.y is never zero.
   */
  method IsInside(p: Point, ring: Ring) returns (c: bool)
    ensures c == Inside(p, ring)
  {
    c := false;
    var i := 0;
    var j := |ring| - 1;
    while i < |ring|
      invariant 0 <= i <= |ring|
      invariant i < |ring| ==> j == Prev(|ring|, i)
      invariant c == (CrossingCount(p, ring, i) % 2 == 1)
    {
      var pi := ring[i];
      var pj := ring[j];
      if (pi.y <= p.y && p.y < pj.y) || (pj.y <= p.y && p.y < pi.y) {
        if p.x < Mul(pj.x - pi.x, p.y - pi.y) / (pj.y - pi.y) + pi.x {
          c := !c;
        }
      }
      j := i;
      i := i + 1;
    }
  }

  /** An edge that passes the half-open test is never horizontal. */
  lemma StraddleMeansDistinctOrdinates(p: Point, pi: Point, pj: Point)
    requires StraddlesY(p, pi, pj)
    ensures pj.y - pi.y != 0.0
  {
  }

  /**
   * A ring of at most two vertices contains no point: with one vertex the
   * only edge is degenerate, with two the same edge is walked twice.
   */
  lemma TinyRingIsOutside(p: Point, ring: Ring)
    requires |ring| <= 2
    ensures !Inside(p, ring)
    ensures |ring| <= 1 ==> CrossingCount(p, ring, |ring|) == 0
  {
    if |ring| == 2 {
      assert EdgeCrosses(p, ring, 0) == EdgeCrosses(p, ring, 1);
    }
  }

  /** The crossing abscissa lies between the abscissas of the edge's ends. */
  lemma CrossingXBelowBound(p: Point, pi: Point, pj: Point, m: real)
    requires StraddlesY(p, pi, pj) && pi.x <= m && pj.x <= m
    ensures CrossingX(p, pi, pj) <= m
  {
    var w := pj.y - pi.y;
    RatioInUnit(p.y - pi.y, w);
    MulThenDivide(pj.x - pi.x, p.y - pi.y, w);
    MulCommutative(pj.x - pi.x, (p.y - pi.y) / w);
    BetweenBelowBound(pi.x, pj.x, (p.y - pi.y) / w, m);
  }

  /** No edge among the first k is crossed when none of them is. */
  lemma {:induction false} NoCrossingCountsZero(p: Point, ring: Ring, k: nat)
    requires k <= |ring|
    requires forall i :: 0 <= i < k ==> !EdgeCrosses(p, ring, i)
    ensures CrossingCount(p, ring, k) == 0
  {
    if k > 0 {
      NoCrossingCountsZero(p, ring, k - 1);
    }
  }

  /**
   * A point at or right of every vertex, at or above every vertex, or below
   * every vertex is outside: the ray crosses no edge.
   */
  lemma BeyondExtentIsOutside(p: Point, ring: Ring)
    requires (forall v :: v in ring ==> v.x <= p.x)
          || (forall v :: v in ring ==> v.y <= p.y)
          || (forall v :: v in ring ==> p.y < v.y)
    ensures CrossingCount(p, ring, |ring|) == 0
    ensures !Inside(p, ring)
  {
    forall i | 0 <= i < |ring|
      ensures !EdgeCrosses(p, ring, i)
    {
      var pi, pj := ring[i], ring[Prev(|ring|, i)];
      assert pi in ring && pj in ring;
      if StraddlesY(p, pi, pj) {
        CrossingXBelowBound(p, pi, pj, p.x);
      }
    }
    NoCrossingCountsZero(p, ring, |ring|);
  }

  /** The crossing abscissa lies between the abscissas of the edge's ends. */
  lemma CrossingXAboveBound(p: Point, pi: Point, pj: Point, m: real)
    requires StraddlesY(p, pi, pj) && m <= pi.x && m <= pj.x
    ensures m <= CrossingX(p, pi, pj)
  {
    var w := pj.y - pi.y;
    RatioInUnit(p.y - pi.y, w);
    MulThenDivide(pj.x - pi.x, p.y - pi.y, w);
    MulCommutative(pj.x - pi.x, (p.y - pi.y) / w);
    BetweenAboveBound(pi.x, pj.x, (p.y - pi.y) / w, m);
  }

  /**
   * The half-open test is an exclusive or: an edge straddles the ordinate of
   * p exactly when one of its ends is at or below p and the other is not.
   */
  lemma StraddleIsExclusiveOr(p: Point, pi: Point, pj: Point)
    ensures StraddlesY(p, pi, pj) <==> ((pi.y <= p.y) != (pj.y <= p.y))
  {
  }

  /**
   * When every straddling edge is crossed, the crossings over edges 0 .. k - 1
   * telescope: their number is odd exactly when the last vertex and vertex
   * k - 1 lie on different sides of the ordinate of p.
   */
  lemma {:induction false} StraddleCountParity(p: Point, ring: Ring, k: nat)
    requires 1 <= k <= |ring|
    requires forall i :: 0 <= i < |ring| ==> (EdgeCrosses(p, ring, i) <==> StraddlesY(p, ring[i], ring[Prev(|ring|, i)]))
    ensures (CrossingCount(p, ring, k) % 2 == 1) <==> ((ring[|ring| - 1].y <= p.y) != (ring[k - 1].y <= p.y))
  {
    StraddleIsExclusiveOr(p, ring[k - 1], ring[Prev(|ring|, k - 1)]);
    if k > 1 {
      StraddleCountParity(p, ring, k - 1);
    }
  }

  /**
   * On a closed ring the half-open test passes an even number of times, so
   * a point strictly left of every vertex, whose ray crosses every edge that
   * passes the test, is outside.
   */
  lemma LeftOfExtentIsOutside(p: Point, ring: Ring)
    requires forall v :: v in ring ==> p.x < v.x
    ensures CrossingCount(p, ring, |ring|) % 2 == 0
    ensures !Inside(p, ring)
  {
    if |ring| > 0 {
      forall i | 0 <= i < |ring|
        ensures EdgeCrosses(p, ring, i) <==> StraddlesY(p, ring[i], ring[Prev(|ring|, i)])
      {
        var pi, pj := ring[i], ring[Prev(|ring|, i)];
        assert pi in ring && pj in ring;
        if StraddlesY(p, pi, pj) {
          var m := if pi.x < pj.x then pi.x else pj.x;
          CrossingXAboveBound(p, pi, pj, m);
        }
      }
      StraddleCountParity(p, ring, |ring|);
    }
  }
}
