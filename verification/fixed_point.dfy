/**
 Integer-scaled fixed-point arithmetic with the half-up rounding of a
 decimal library: a quotient is rounded to the nearest integer, and a tie
 (a fractional part of exactly one half) is rounded away from zero.

 A decimal value with two fraction digits is represented by the integer
 that counts its hundredths; a product of two such values counts
 ten-thousandths. Rounding a quotient `x / d` to an integer is therefore
 the only rounding primitive the fare model needs:
 - metres to hundredths of a kilometre is `x / 10`,
 - seconds to hundredths of a minute is `(100 * x) / 60`,
 - ten-thousandths to hundredths is `x / 100`.
 */
module FixedPoint {

  /** `r` is the exact quotient `x / d` rounded half-up (ties away from zero).
      For `x >= 0`: `r - 1/2 <= x/d < r + 1/2`, a tie goes up to `r`.
      For `x < 0`:  `r - 1/2 < x/d <= r + 1/2`, a tie goes down to `r`.
      Both are stated multiplied by `2 * d` to stay in integers. */
  ghost predicate IsHalfUp(x: int, d: int, r: int)
    requires d > 0
  {
    if x >= 0 then 2 * d * r - d <= 2 * x < 2 * d * r + d
    else 2 * d * r - d < 2 * x <= 2 * d * r + d
  }

  /** The rounded quotient of `x` by `d`, computed with Euclidean division
      on the magnitude and the sign put back afterwards. */
  function RoundHalfUp(x: int, d: int): (r: int)
    requires d > 0
    ensures IsHalfUp(x, d, r)
    ensures x >= 0 ==> r >= 0
    ensures x <= 0 ==> r <= 0
  {
    if x >= 0 then
      var q := (2 * x + d) / (2 * d);
      DivBounds(2 * x + d, 2 * d);
      q
    else
      var q := (-2 * x + d) / (2 * d);
      DivBounds(-2 * x + d, 2 * d);
      -q
  }

  /** Euclidean division brackets its dividend. */
  lemma DivBounds(n: int, m: int)
    requires m > 0
    ensures m * (n / m) <= n < m * (n / m) + m
  {
  }

  /** Multiplying by a positive factor preserves a strict order. */
  lemma MulStrict(d: int, a: int, b: int)
    requires d > 0 && a < b
    ensures d * a + d <= d * b
  {
    var k := b - a - 1;
    assert 0 <= d * k;
    assert d * b == d * a + d + d * k;
  }

  /** Multiplying by a non-negative factor preserves a weak order. */
  lemma MulMonotone(a: int, b: int, c: int)
    requires a <= b && c >= 0
    ensures a * c <= b * c
  {
    assert b * c - a * c == (b - a) * c;
  }

  /** At most one integer is the half-up rounding of a quotient. */
  lemma HalfUpUnique(x: int, d: int, r1: int, r2: int)
    requires d > 0
    requires IsHalfUp(x, d, r1) && IsHalfUp(x, d, r2)
    ensures r1 == r2
  {
    if r1 < r2 {
      MulStrict(2 * d, r1, r2);
    } else if r2 < r1 {
      MulStrict(2 * d, r2, r1);
    }
  }

  /** Rounding never reverses the order of two quotients by the same divisor. */
  lemma RoundHalfUpMonotone(x: int, y: int, d: int)
    requires d > 0 && x <= y
    ensures RoundHalfUp(x, d) <= RoundHalfUp(y, d)
  {
    var rx, ry := RoundHalfUp(x, d), RoundHalfUp(y, d);
    if ry < rx {
      MulStrict(2 * d, ry, rx);
    }
  }

  /** A quotient that is already an integer is left unchanged. */
  lemma RoundHalfUpExact(k: int, d: int)
    requires d > 0
    ensures RoundHalfUp(d * k, d) == k
  {
    assert IsHalfUp(d * k, d, k);
    HalfUpUnique(d * k, d, RoundHalfUp(d * k, d), k);
  }

  /** Rounding moves a quotient by at most one half: `|d * r - x| <= d / 2`. */
  lemma RoundHalfUpError(x: int, d: int)
    requires d > 0
    ensures -d <= 2 * (d * RoundHalfUp(x, d) - x) <= d
  {
  }
}
