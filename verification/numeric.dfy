/** Exact stand-ins for the JavaScript number operations the calculator uses:
    `Math.pow` with a whole exponent, `Math.round`, and `parseInt` applied to a number. */
module Numeric {

  /** `Math.pow(x, n)` for a whole exponent `n`, computed exactly. */
  function Pow(x: real, n: nat): real
  {
    if n == 0 then 1.0 else x * Pow(x, n - 1)
  }

  lemma {:induction false} PowAtLeastOne(x: real, n: nat)
    requires x >= 1.0
    ensures Pow(x, n) >= 1.0
  {
    if n > 0 {
      PowAtLeastOne(x, n - 1);
      var p := Pow(x, n - 1);
      assert x * p - p == (x - 1.0) * p;
      assert (x - 1.0) * p >= 0.0;
    }
  }

  /** A base above one raised to a positive power stays above one. */
  lemma PowAboveOne(x: real, n: nat)
    requires x > 1.0 && n >= 1
    ensures Pow(x, n) > 1.0
  {
    PowAtLeastOne(x, n - 1);
    var p := Pow(x, n - 1);
    assert x * p - p == (x - 1.0) * p;
    assert (x - 1.0) * p > 0.0;
  }

  /** Multiplying both sides by a non-negative factor keeps an ordering. */
  lemma ScaleNonNegative(a: real, b: real, c: real)
    requires a <= b && c >= 0.0
    ensures a * c <= b * c
  {
    assert b * c - a * c == (b - a) * c;
  }

  /** Dividing by a positive number keeps an ordering. */
  lemma DivideOrdered(a: real, b: real, c: real)
    requires a <= b && c > 0.0
    ensures a / c <= b / c
  {
    assert b / c - a / c == (b - a) / c;
  }

  /** For `c >= 0` and `0 <= a <= b <= m`: `0 <= c a / m <= c b / m <= c`. */
  lemma ScaledFractionsOrdered(c: real, a: real, b: real, m: real)
    requires c >= 0.0 && 0.0 <= a <= b <= m && m > 0.0
    ensures 0.0 <= c * a / m <= c * b / m <= c
  {
    ScaleNonNegative(0.0, a, c);
    ScaleNonNegative(a, b, c);
    ScaleNonNegative(b, m, c);
    assert a * c == c * a && b * c == c * b && m * c == c * m;
    DivideOrdered(0.0, c * a, m);
    DivideOrdered(c * a, c * b, m);
    DivideOrdered(c * b, c * m, m);
    assert c * m / m == c;
  }

  /** A factor of a positive product with a positive other factor is positive. */
  lemma QuotientPositive(a: real, b: real, p: real)
    requires a * b == p && b > 0.0 && p > 0.0
    ensures a > 0.0
  {
    if a <= 0.0 {
      ScaleNonNegative(a, 0.0, b);
    }
  }

  /** `r` is what `Math.round` returns for `x`: the nearest integer, halves rounded up. */
  predicate IsRounding(r: int, x: real)
  {
    x - 0.5 < r as real <= x + 0.5
  }

  /** `Math.round`. */
  function Round(x: real): (r: int)
    ensures IsRounding(r, x)
  {
    (x + 0.5).Floor
  }

  /** `Math.round` never reverses the order of its arguments. */
  lemma RoundMonotone(x: real, y: real)
    requires x <= y
    ensures Round(x) <= Round(y)
  {
  }

  /** Rounding a sum and summing the rounded parts differ by at most one. */
  lemma RoundOfSumWithinOne(x: real, y: real)
    ensures -1 <= Round(x + y) - (Round(x) + Round(y)) <= 1
  {
  }

  /** `parseInt` applied to a number: truncation toward zero. */
  function Trunc(x: real): (r: int)
    ensures 0.0 <= x ==> r as real <= x < r as real + 1.0
    ensures x < 0.0 ==> r as real - 1.0 < x <= r as real
  {
    if x >= 0.0 then x.Floor else -((-x).Floor)
  }
}
