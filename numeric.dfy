/** Integer conversions the calculation relies on: Python's int() applied to a
    number (truncation toward zero) and the integer ceiling of a square root
    that the heatmap takes as its side length. */
module Numeric {

  /** Python's int() on a number: drops the fractional part, rounding toward zero. */
  function Trunc(r: real): (t: int)
    ensures 0.0 <= r ==> t as real <= r < t as real + 1.0
    ensures r < 0.0 ==> t as real - 1.0 < r <= t as real
  {
    if r >= 0.0 then r.Floor else -((-r).Floor)
  }

  /** An integer converts to itself. */
  lemma TruncOfInteger(k: int)
    ensures Trunc(k as real) == k
  {
  }

  /** Truncation never reverses the order of two numbers. */
  lemma TruncMonotone(a: real, b: real)
    requires a <= b
    ensures Trunc(a) <= Trunc(b)
  {
  }

  /** Squaring keeps the order of natural numbers. */
  lemma SquareMonotone(a: nat, b: nat)
    requires a <= b
    ensures a * a <= b * b
  {
    assert a * a <= a * b by {
      assert a * (b - a) >= 0;
    }
    assert a * b <= b * b by {
      assert (b - a) * b >= 0;
    }
  }

  /** The smallest square that covers n cells has side CeilSqrtFrom(n, g),
      searching upward from a side g that is still too small (or zero). */
  function CeilSqrtFrom(n: nat, g: nat): (r: nat)
    requires g == 0 || (g - 1) * (g - 1) < n
    ensures n <= r * r
    ensures r == 0 || (r - 1) * (r - 1) < n
    decreases n - g
  {
    if n <= g * g then g
    else
      assert g < n by {
        if g > 0 {
          SquareMonotone(1, g);
        }
      }
      CeilSqrtFrom(n, g + 1)
  }

  /** ceil(sqrt(n)) for a non-negative integer n, computed exactly. */
  function CeilSqrt(n: nat): (g: nat)
    ensures n <= g * g
    ensures g == 0 || (g - 1) * (g - 1) < n
  {
    CeilSqrtFrom(n, 0)
  }

  /** CeilSqrt(n) is the least side whose square holds n cells. */
  lemma CeilSqrtIsLeast(n: nat, h: nat)
    requires n <= h * h
    ensures CeilSqrt(n) <= h
  {
    var g := CeilSqrt(n);
    if h < g {
      SquareMonotone(h, g - 1);
    }
  }

  /** The side of the square is determined by the two bounds alone. */
  lemma CeilSqrtUnique(n: nat, h: nat)
    requires n <= h * h
    requires h == 0 || (h - 1) * (h - 1) < n
    ensures h == CeilSqrt(n)
  {
    var g := CeilSqrt(n);
    CeilSqrtIsLeast(n, h);
    if g < h {
      SquareMonotone(g, h - 1);
    }
  }
}
