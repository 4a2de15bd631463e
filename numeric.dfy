/**
 * Integer helpers for the places where the app converts a `Double` back to
 * an `Int` or clamps a score. `Double` itself is modelled by `real`, which
 * is exact; see README for what that leaves out.
 */
module Numeric {

  function Max(a: int, b: int): int { if a >= b then a else b }

  function Min(a: int, b: int): int { if a <= b then a else b }

  /** Swift's `Int(x)` on a `Double`: truncation toward zero. */
  function Trunc(x: real): (r: int)
    ensures x >= 0.0 ==> 0 <= r && r as real <= x < r as real + 1.0
    ensures x < 0.0 ==> r <= 0 && r as real - 1.0 < x <= r as real
  {
    if x >= 0.0 then x.Floor else -((-x).Floor)
  }

  /** The absolute value of an `Int`, as Swift's `abs`. */
  function Abs(x: int): (r: nat)
    ensures r == x || r == -x
  {
    if x < 0 then -x else x
  }

  /** Truncating a non-negative quotient of integers is integer division. */
  lemma TruncOfQuotient(a: int, b: int)
    requires a >= 0 && b > 0
    ensures Trunc(a as real / b as real) == a / b
  {
    var q, m := a / b, a % b;
    assert a == b * q + m && 0 <= m < b;
    assert (a as real) == (b as real) * (q as real) + (m as real);
    var x, br := a as real / b as real, b as real;
    assert x * br == a as real;
    var lo, hi := x - q as real, q as real + 1.0 - x;
    assert lo * br == a as real - (q as real) * br;
    assert (q as real) * br == (b * q) as real;
    NonNegativeFactor(lo, br);
    assert hi * br == (q as real + 1.0) * br - a as real;
    assert (q as real + 1.0) * br == (b * q + b) as real;
    PositiveFactor(hi, br);
    assert x.Floor as real <= x < x.Floor as real + 1.0;
  }

  /** Bounds on a numerator give bounds on the quotient. */
  lemma QuotientBetween(a: int, b: int, lo: int, hi: int)
    requires b > 0 && lo * b <= a <= hi * b
    ensures lo <= a / b <= hi
  {
    var q, m := a / b, a % b;
    assert a == b * q + m && 0 <= m < b;
    if q < lo {
      assert b * q + b <= b * lo by { ScaleUp(q + 1, lo, b); }
    }
    if q > hi {
      assert b * (hi + 1) <= b * q by { ScaleUp(hi + 1, q, b); }
    }
  }

  /** `a / m` for `0 <= a <= m` lies in `[0, 1]`, and scaling it back by `m` gives `a`. */
  lemma FractionBounds(a: int, m: int)
    requires 0 <= a <= m && m > 0
    ensures 0.0 <= a as real / m as real <= 1.0
    ensures (a as real / m as real) * m as real == a as real
  {
    var u := a as real / m as real;
    assert u * m as real == a as real;
    NonNegativeFactor(u, m as real);
    assert (1.0 - u) * m as real == (m - a) as real;
    NonNegativeFactor(1.0 - u, m as real);
  }

  /** Dividing both sides of `x · n == y` by a positive `n`. */
  lemma Unscale(x: real, y: real, n: real)
    requires n > 0.0 && x * n == y
    ensures x == y / n
  {
  }

  /**
   * Comparing a quotient with a multiple `k` of another quotient is
   * comparing cross products.
   */
  lemma CrossMultiply(a: int, b: int, c: int, d: int, k: real)
    requires b > 0 && d > 0
    ensures (a as real / b as real > (c as real / d as real) * k)
        <==> (a as real) * (d as real) > k * (c as real) * (b as real)
    ensures (a as real / b as real < (c as real / d as real) * k)
        <==> (a as real) * (d as real) < k * (c as real) * (b as real)
  {
    var x, y, br, dr := a as real / b as real, c as real / d as real, b as real, d as real;
    assert x * br == a as real && y * dr == c as real;
    PositiveProduct(br, dr);
    var u := x - y * k;
    assert u * (br * dr) == (a as real) * dr - k * (c as real) * br;
    if u > 0.0 { PositiveProduct(u, br * dr); }
    if u < 0.0 { PositiveProduct(-u, br * dr); }
    if u * (br * dr) > 0.0 { PositiveFactor(u, br * dr); }
    if u * (br * dr) < 0.0 { PositiveFactor(-u, br * dr); }
  }

  /** `Int(x / m * 100)` for a fraction of non-negative integers is an integer quotient. */
  lemma PercentOf(x: int, m: int)
    requires x >= 0 && m > 0
    ensures Trunc(x as real / m as real * 100.0) == 100 * x / m
  {
    assert x as real / m as real * 100.0 == (100 * x) as real / m as real;
    TruncOfQuotient(100 * x, m);
  }

  /**
   * The mean of `count` values adding up to `total`, or 0 when there are
   * none: times the count it gives back the total.
   */
  function Mean(total: int, count: nat): (m: real)
    ensures count == 0 ==> m == 0.0
    ensures m * count as real == total as real || count == 0
  {
    if count == 0 then 0.0 else total as real / count as real
  }

  /** The mean of `k` values totalling between `k·lo` and `k·hi` lies between `lo` and `hi`. */
  lemma MeanBetween(total: int, k: nat, lo: int, hi: int)
    requires k > 0 && k * lo <= total <= k * hi
    ensures lo as real <= Mean(total, k) <= hi as real
  {
    var kr := k as real;
    var m := total as real / kr;
    assert m * kr == total as real;
    assert (m - lo as real) * kr == total as real - (k * lo) as real;
    assert (hi as real - m) * kr == (k * hi) as real - total as real;
    NonNegativeFactor(m - lo as real, kr);
    NonNegativeFactor(hi as real - m, kr);
  }

  lemma ScaleUp(x: int, y: int, b: int)
    requires x <= y && b > 0
    ensures b * x <= b * y
  {
  }

  lemma NonNegativeFactor(u: real, v: real)
    requires v > 0.0 && u * v >= 0.0
    ensures u >= 0.0
  {
    if u < 0.0 {
      PositiveProduct(-u, v);
    }
  }

  lemma PositiveFactor(u: real, v: real)
    requires v > 0.0 && u * v > 0.0
    ensures u > 0.0
  {
    if u < 0.0 {
      PositiveProduct(-u, v);
    }
  }

  lemma PositiveProduct(u: real, v: real)
    requires u > 0.0 && v > 0.0
    ensures u * v > 0.0
  {
  }
}
