/** Integer facts shared by the row-major buffer and the noise lattice. */
module Arith {

  lemma MulMonotone(a: int, b: int, c: int)
    requires a <= b && c >= 0
    ensures a * c <= b * c
  {
    assert b * c - a * c == (b - a) * c;
  }

  /** y * w + x is a valid index of a w-by-h row-major array for an in-range (x, y). */
  lemma RowMajorBound(w: int, h: int, x: int, y: int)
    requires 0 <= x < w && 0 <= y < h
    ensures 0 <= y * w + x < w * h
  {
    assert y * w <= (h - 1) * w by {
      MulMonotone(y, h - 1, w);
    }
    assert (h - 1) * w == h * w - w;
  }

  /** Quotient and remainder are the only such pair. */
  lemma DivModUnique(n: int, d: int, q: int, m: int)
    requires d > 0 && 0 <= m < d && n == q * d + m
    ensures n / d == q && n % d == m
  {
    var q', m' := n / d, n % d;
    assert n == q' * d + m' && 0 <= m' < d;
    assert (q - q') * d == m' - m;
    if q > q' {
      MulMonotone(1, q - q', d);
    } else if q < q' {
      MulMonotone(1, q' - q, d);
    }
  }

  /** Adding the modulus does not change the remainder. */
  lemma ModShift(a: int, d: int)
    requires d > 0
    ensures (a + d) % d == a % d
  {
    DivModUnique(a + d, d, a / d + 1, a % d);
  }

  lemma RealMulNonNeg(a: real, b: real)
    requires a >= 0.0 && b >= 0.0
    ensures a * b >= 0.0
  {
  }

  lemma RealMulMonotone(a: real, b: real, c: real)
    requires a <= b && c >= 0.0
    ensures a * c <= b * c
  {
    RealMulNonNeg(b - a, c);
    assert (b - a) * c == b * c - a * c;
  }

  lemma RealMulPos(a: real, b: real)
    requires a > 0.0 && b > 0.0
    ensures a * b > 0.0
  {
  }

  /** a / d lies in [0, 1] when 0 <= a <= d, and below 1 when a < d. */
  lemma RealDivBounds(a: real, d: real)
    requires d > 0.0
    ensures 0.0 <= a <= d ==> 0.0 <= a / d <= 1.0
    ensures 0.0 <= a < d ==> a / d < 1.0
  {
    if 0.0 <= a <= d {
      var q := a / d;
      assert q * d == a;
      if q < 0.0 {
        RealMulPos(-q, d);
      }
      if q >= 1.0 {
        RealMulNonNeg(q - 1.0, d);
      }
    }
  }

  function Abs(x: real): real { if x < 0.0 then -x else x }

  /** Every natural number is even or odd. */
  lemma Halves(k: nat)
    ensures k == 2 * (k / 2) || k == 2 * (k / 2) + 1
  {
  }
}
