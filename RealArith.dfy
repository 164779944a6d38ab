/**
 * Real arithmetic used by the geometry proofs.
 *
 * Squares are written Sq(u) and products Mul(u, v) everywhere in the model, so
 * that every nonlinear term the solver meets has one shape; the lemmas below
 * are the only places that look inside them.
 *
 * Many of these lemmas are one-line facts the solver proves on its own. They
 * exist so that the geometry proofs can name each nonlinear step on Sq and
 * Mul terms explicitly: the solver normalises a product it meets written out
 * differently from one it meets through a function body, and the two then
 * fail to match.
 */
module RealArith {

  function Sq(u: real): real
  {
    u * u
  }

  function Mul(u: real, v: real): real
  {
    u * v
  }

  /** A product with a zero factor is zero. */
  lemma ProductWithZero(u: real, v: real)
    requires v == 0.0
    ensures Mul(u, v) == 0.0
  {
  }

  lemma ProductPositive(u: real, v: real)
    requires u > 0.0 && v > 0.0
    ensures Mul(u, v) > 0.0
  {
  }

  lemma ProductOfNegatives(u: real, v: real)
    requires u < 0.0 && v < 0.0
    ensures Mul(u, v) > 0.0
  {
  }

  /** A square is positive away from zero. */
  lemma SquarePositive(u: real)
    requires u < 0.0 || u > 0.0
    ensures Sq(u) > 0.0
  {
    if u > 0.0 {
      ProductPositive(u, u);
    } else {
      ProductOfNegatives(u, u);
    }
  }

  lemma SquareNonNegative(u: real)
    ensures Sq(u) >= 0.0
  {
    if u < 0.0 || u > 0.0 {
      SquarePositive(u);
    }
  }

  /** Squares grow with the distance from zero. */
  lemma SquareMonotone(u: real, v: real)
    requires 0.0 <= u <= v
    ensures Sq(u) <= Sq(v)
  {
    assert Sq(v) - Sq(u) == Mul(v - u, v + u);
    if u < v {
      ProductPositive(v - u, v + u);
    }
  }

  /** Sq(u) depends only on the magnitude of u. */
  lemma SquareOfNegation(u: real)
    ensures Sq(-u) == Sq(u)
  {
  }

  /** The squared Euclidean norm of the vector (u, v). */
  function Norm2(u: real, v: real): (n: real)
    ensures n >= 0.0
  {
    SquareNonNegative(u);
    SquareNonNegative(v);
    Sq(u) + Sq(v)
  }

  /** The squared norm of (u, v) is positive away from the origin. */
  lemma NormPositive(u: real, v: real)
    requires u < 0.0 || u > 0.0 || v < 0.0 || v > 0.0
    ensures Norm2(u, v) > 0.0
  {
    SquareNonNegative(u);
    SquareNonNegative(v);
    if u < 0.0 || u > 0.0 {
      SquarePositive(u);
    } else {
      SquarePositive(v);
    }
  }

  /** (u - t v)^2 == u^2 - 2 t u v + t^2 v^2. */
  lemma SquareOfDifference(u: real, v: real, t: real)
    ensures Sq(u - Mul(t, v)) == Sq(u) - 2.0 * Mul(t, Mul(u, v)) + Mul(Sq(t), Sq(v))
  {
  }

  /** k (u + v) == k u + k v. */
  lemma Distribute(k: real, u: real, v: real)
    ensures Mul(k, u + v) == Mul(k, u) + Mul(k, v)
  {
  }

  /**
   * Completing the square: with dot == param * len,
   * t^2 len - 2 t dot == len ((t - param)^2 - param^2).
   */
  lemma CompleteSquare(len: real, param: real, t: real)
    ensures Mul(Sq(t), len) - 2.0 * Mul(t, Mul(param, len))
         == Mul(len, Sq(t - param) - Sq(param))
  {
  }

  /** Multiplying both sides of u <= v by a positive k. */
  lemma ScaleMonotone(k: real, u: real, v: real)
    requires k > 0.0 && u <= v
    ensures Mul(k, u) <= Mul(k, v)
  {
    if u < v {
      ProductPositive(k, v - u);
      assert Mul(k, v) - Mul(k, u) == Mul(k, v - u);
    }
  }

  /** (x / y) * y == x for a non-zero y. */
  lemma DivideThenMultiply(x: real, y: real)
    requires y != 0.0
    ensures Mul(x / y, y) == x
  {
  }

  /** x / w == y when x == y * w and w is not zero. */
  lemma DivideExact(x: real, y: real, w: real)
    requires w != 0.0 && x == Mul(y, w)
    ensures x / w == y
  {
  }

  lemma MulAssociative(a: real, b: real, c: real)
    ensures Mul(a, Mul(b, c)) == Mul(Mul(a, b), c)
  {
  }

  lemma MulCommutative(a: real, b: real)
    ensures Mul(a, b) == Mul(b, a)
  {
  }

  /** Scaling by a positive w keeps the sign of s and the side of 1 it is on. */
  lemma ScaleByPositive(s: real, w: real)
    requires w > 0.0
    ensures s < 0.0 ==> Mul(s, w) < 0.0
    ensures s > 1.0 ==> Mul(s, w) > w
  {
  }

  /** Scaling by a negative w reverses both comparisons. */
  lemma ScaleByNegative(s: real, w: real)
    requires w < 0.0
    ensures s < 0.0 ==> Mul(s, w) > 0.0
    ensures s > 1.0 ==> Mul(s, w) < w
  {
  }

  /** u / w lies in [0, 1] when u lies between 0 and w (and w is not zero). */
  lemma RatioInUnit(u: real, w: real)
    requires (0.0 <= u <= w && w > 0.0) || (w <= u <= 0.0 && w < 0.0)
    ensures 0.0 <= u / w <= 1.0
  {
    DivideThenMultiply(u, w);
    if w > 0.0 {
      ScaleByPositive(u / w, w);
    } else {
      ScaleByNegative(u / w, w);
    }
  }

  /** (c * u) / w == c * (u / w). */
  lemma MulThenDivide(c: real, u: real, w: real)
    requires w != 0.0
    ensures Mul(c, u) / w == Mul(c, u / w)
  {
    DivideThenMultiply(u, w);
    MulAssociative(c, u / w, w);
    DivideExact(Mul(c, u), Mul(c, u / w), w);
  }

  /** Scaling by a factor in [0, 1] moves a value towards zero. */
  lemma ScaleByUnit(s: real, d: real)
    requires 0.0 <= s <= 1.0
    ensures d >= 0.0 ==> 0.0 <= Mul(s, d) <= d
    ensures d < 0.0 ==> d <= Mul(s, d) <= 0.0
  {
    if d > 0.0 {
      ScaleMonotone(d, s, 1.0);
      MulCommutative(s, d);
    }
  }

  /** A point a + s (b - a) with s in [0, 1] is at most any common bound of a and b. */
  lemma BetweenBelowBound(a: real, b: real, s: real, m: real)
    requires 0.0 <= s <= 1.0 && a <= m && b <= m
    ensures a + Mul(s, b - a) <= m
  {
    ScaleByUnit(s, b - a);
  }

  /** A point a + s (b - a) with s in [0, 1] is at least any common lower bound of a and b. */
  lemma BetweenAboveBound(a: real, b: real, s: real, m: real)
    requires 0.0 <= s <= 1.0 && m <= a && m <= b
    ensures m <= a + Mul(s, b - a)
  {
    ScaleByUnit(s, b - a);
  }

  /** One more copy of s: (k + 1) s == k s + s. */
  lemma MulSucc(k: real, s: real)
    ensures Mul(k + 1.0, s) == Mul(k, s) + s
  {
  }

  lemma ProductNonNegative(u: real, v: real)
    requires u >= 0.0 && v >= 0.0
    ensures Mul(u, v) >= 0.0
  {
  }

  /** Scaling both factors by 1/24 scales the product by 1/576. */
  lemma ProductOfTwentyFourths(w: real, h: real)
    ensures Mul(w / 24.0, h / 24.0) == Mul(w, h) / 576.0
  {
  }

  /** Doubling both factors quadruples the product. */
  lemma ProductOfDoubles(w: real, h: real)
    ensures Mul(w + w, h + h) == 4.0 * Mul(w, h)
  {
  }

  lemma QuotientMonotone(a: real, b: real, p: real)
    requires p > 0.0 && a <= b
    ensures a / p <= b / p
  {
  }

  lemma QuotientAboveOne(a: real, p: real)
    requires p > 0.0 && a > p
    ensures a / p > 1.0
  {
  }

  lemma QuotientCommutes(a: real, p: real)
    requires p > 0.0
    ensures (a / 144.0) / p == (a / p) / 144.0
  {
  }

  /** Dividing a value above 1 by 144 at least lowers its floor. */
  lemma FloorShrinks(x: real, x2: real)
    requires x > 1.0 && 0.0 <= x2 <= x / 144.0
    ensures 0 <= x2.Floor < x.Floor
  {
  }
}
