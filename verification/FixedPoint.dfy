/**
 Decimal numbers as bignumber.js keeps them by default: sums, differences and products are exact,
 quotients and square roots are rounded half up to twenty decimal places. A value is the integer it
 gives when multiplied by the scale.
 */
module FixedPoint {

  const SCALE := 1_00000_00000_00000_00000

  lemma ProductMonotone(a: int, b: int, d: int)
    requires a <= b && d >= 0
    ensures a * d <= b * d
  {
  }

  lemma NextProduct(k: int, r: int, d: nat)
    requires k < r
    ensures k * d + d <= r * d
  {
    ProductMonotone(k + 1, r, d);
    assert (k + 1) * d == k * d + d;
  }

  // ---- Division ----

  /** n / d to the nearest integer, halves up. */
  function RoundDiv(n: nat, d: nat): (r: nat)
    requires d > 0
    ensures 2 * (r * d) - d <= 2 * n < 2 * (r * d) + d
  {
    var q := n / d;
    NearestQuotient(n, d, q, n % d);
    if 2 * (n % d) < d then q else q + 1
  }

  lemma NearestQuotient(n: nat, d: nat, q: nat, r: nat)
    requires n == q * d + r && r < d
    ensures 2 * (q * d) - d <= 2 * n && (2 * r < d ==> 2 * n < 2 * (q * d) + d)
    ensures 2 * r >= d ==> 2 * ((q + 1) * d) - d <= 2 * n < 2 * ((q + 1) * d) + d
  {
    assert (q + 1) * d == q * d + d;
  }

  lemma RoundDivAtMost(n: nat, d: nat, k: nat)
    requires d > 0 && 2 * n < 2 * (k * d) + d
    ensures RoundDiv(n, d) <= k
  {
    var r := RoundDiv(n, d);
    hide RoundDiv;
    if r > k {
      NextProduct(k, r, d);
    }
  }

  lemma RoundDivAtLeast(n: nat, d: nat, k: nat)
    requires d > 0 && 2 * (k * d) - d <= 2 * n
    ensures k <= RoundDiv(n, d)
  {
    var r := RoundDiv(n, d);
    hide RoundDiv;
    if r < k {
      NextProduct(r, k, d);
    }
  }

  /** A larger numerator never gives a smaller quotient. */
  lemma RoundDivMonotone(n: nat, m: nat, d: nat)
    requires n <= m && d > 0
    ensures RoundDiv(n, d) <= RoundDiv(m, d)
  {
    RoundDivAtLeast(m, d, RoundDiv(n, d));
  }

  // ---- Square roots ----

  function Square(x: int): int { x * x }

  lemma SquareExpands(s: int)
    ensures Square(s + 1) == Square(s) + 2 * s + 1
    ensures Square(2 * s) == 4 * Square(s)
    ensures Square(2 * s + 1) == 4 * Square(s) + 4 * s + 1
    ensures Square(2 * s - 1) == 4 * Square(s) - 4 * s + 1
  {
  }

  lemma SquareMonotone(a: int, b: int)
    requires 0 <= a <= b
    ensures Square(a) <= Square(b)
  {
    ProductMonotone(a, b, a);
    ProductMonotone(a, b, b);
  }

  function FloorSqrt(n: nat): (s: nat)
    ensures Square(s) <= n < Square(s + 1)
  {
    if n == 0 then 0
    else
      var half := FloorSqrt(n / 4);
      var s := 2 * half;
      FloorSqrtStep(n, half);
      if Square(s + 1) <= n then s + 1 else s
  }

  lemma FloorSqrtStep(n: nat, half: nat)
    requires Square(half) <= n / 4 < Square(half + 1)
    ensures Square(2 * half) <= n < Square(2 * half + 2)
  {
    SquareExpands(half);
    SquareExpands(half + 1);
    assert 2 * (half + 1) == 2 * half + 2;
  }

  /** The integer nearest to the square root of `n`; an integer has no root exactly between two. */
  function RoundSqrt(n: nat): nat {
    var s := FloorSqrt(n);
    if n > Square(s) + s then s + 1 else s
  }

  /** The root lies within half a unit of its rounding. */
  lemma RoundSqrtIsNearest(n: nat)
    ensures 4 * n < Square(2 * RoundSqrt(n) + 1)
    ensures RoundSqrt(n) > 0 ==> Square(2 * RoundSqrt(n) - 1) < 4 * n
  {
    var s := FloorSqrt(n);
    NearestRoot(n, s);
    hide Square, FloorSqrt;
  }

  lemma NearestRoot(n: nat, s: nat)
    requires Square(s) <= n < Square(s + 1)
    ensures n <= Square(s) + s ==> 4 * n < Square(2 * s + 1) && (s > 0 ==> Square(2 * s - 1) < 4 * n)
    ensures n > Square(s) + s ==> 4 * n < Square(2 * (s + 1) + 1) && Square(2 * (s + 1) - 1) < 4 * n
  {
    SquareExpands(s);
    SquareExpands(s + 1);
    hide Square;
    assert 2 * (s + 1) - 1 == 2 * s + 1;
  }

  /** A larger number never has a smaller root. */
  lemma RoundSqrtMonotone(n: nat, m: nat)
    requires n <= m
    ensures RoundSqrt(n) <= RoundSqrt(m)
  {
    hide RoundSqrt, Square;
    var r, s := RoundSqrt(n), RoundSqrt(m);
    RoundSqrtIsNearest(n);
    RoundSqrtIsNearest(m);
    if r > s {
      SquareMonotone(2 * s + 1, 2 * r - 1);
    }
  }

  /** The rounded root stays on the same side of every integer bound. */
  lemma RoundSqrtBounds(n: nat, x: nat)
    ensures Square(x) <= n ==> x <= RoundSqrt(n)
    ensures n <= Square(x) ==> RoundSqrt(n) <= x
  {
    hide RoundSqrt, Square;
    var r := RoundSqrt(n);
    RoundSqrtIsNearest(n);
    SquareExpands(x);
    if r < x {
      SquareMonotone(2 * r + 1, 2 * x);
    }
    if r > x {
      SquareMonotone(2 * x, 2 * r - 1);
    }
  }
}
