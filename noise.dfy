/**
  ValueNoise2D of astonish.py: a period-by-period lattice of values, looked up
  with wrap-around in both axes and blended bilinearly with smoothstep-eased
  fractions.  The lattice values come from a seeded generator, which is not
  modelled: the grid is an input.
*/
module ValueNoise {
  import opened Arith

  /** The period and the period * period row-major grid of a ValueNoise2D. */
  datatype Noise = Noise(period: int, grid: seq<real>)

  ghost predicate Valid(n: Noise) {
    n.period > 0 && |n.grid| == n.period * n.period
  }

  /** What random.random() delivers: every grid value in [0, 1). */
  ghost predicate GridInUnit(n: Noise) {
    forall i :: 0 <= i < |n.grid| ==> 0.0 <= n.grid[i] < 1.0
  }

  /** The grid position _g reads: both coordinates reduced modulo the period
      (Python's % agrees with Dafny's for a positive period). */
  function GridIndex(period: int, ix: int, iy: int): (k: int)
    requires period > 0
    ensures 0 <= k < period * period
  {
    RowMajorBound(period, period, ix % period, iy % period);
    (iy % period) * period + ix % period
  }

  /** The lattice wraps around: shifting either coordinate by the period reads the same cell. */
  lemma GridIndexPeriodic(period: int, ix: int, iy: int)
    requires period > 0
    ensures GridIndex(period, ix + period, iy) == GridIndex(period, ix, iy)
    ensures GridIndex(period, ix, iy + period) == GridIndex(period, ix, iy)
  {
    ModShift(ix, period);
    ModShift(iy, period);
  }

  /** _g(ix, iy) */
  function Lookup(n: Noise, ix: int, iy: int): (v: real)
    requires Valid(n)
    ensures GridInUnit(n) ==> 0.0 <= v < 1.0
  {
    n.grid[GridIndex(n.period, ix, iy)]
  }

  /** _smoothstep: t * t * (3 - 2 * t) */
  function Smoothstep(t: real): real {
    t * t * (3.0 - 2.0 * t)
  }

  /** Smoothstep fixes 0 and 1 and maps [0, 1] into [0, 1]. */
  lemma SmoothstepRange(t: real)
    ensures Smoothstep(0.0) == 0.0 && Smoothstep(1.0) == 1.0
    ensures 0.0 <= t <= 1.0 ==> 0.0 <= Smoothstep(t) <= 1.0
  {
    if 0.0 <= t <= 1.0 {
      RealMulNonNeg(t * t, 3.0 - 2.0 * t);
      assert 1.0 - Smoothstep(t) == (1.0 - t) * (1.0 - t) * (1.0 + 2.0 * t);
      RealMulNonNeg((1.0 - t) * (1.0 - t), 1.0 + 2.0 * t);
    }
  }

  /** Smoothstep is point-symmetric about (1/2, 1/2). */
  lemma SmoothstepSymmetric(t: real)
    ensures Smoothstep(1.0 - t) == 1.0 - Smoothstep(t)
  {
    assert Smoothstep(1.0 - t) == (1.0 - t) * (1.0 - t) * (1.0 + 2.0 * t);
  }

  /** One step of the bilinear blend in sample: a + s * (b - a), from a at s = 0 to b at s = 1. */
  function Lerp(a: real, b: real, s: real): (r: real)
    ensures s == 0.0 ==> r == a
    ensures s == 1.0 ==> r == b
  {
    a + s * (b - a)
  }

  lemma LerpBetween(a: real, b: real, s: real, lo: real, hi: real)
    requires 0.0 <= s <= 1.0 && lo <= a <= hi && lo <= b <= hi
    ensures lo <= Lerp(a, b, s) <= hi
  {
    assert Lerp(a, b, s) - lo == (1.0 - s) * (a - lo) + s * (b - lo);
    assert hi - Lerp(a, b, s) == (1.0 - s) * (hi - a) + s * (hi - b);
    RealMulNonNeg(1.0 - s, a - lo);
    RealMulNonNeg(s, b - lo);
    RealMulNonNeg(1.0 - s, hi - a);
    RealMulNonNeg(s, hi - b);
  }

  /** The bilinear blend of the four corners with eased fractions sx, sy. */
  function Blend(v00: real, v10: real, v01: real, v11: real, sx: real, sy: real): (r: real)
    ensures sx == 0.0 && sy == 0.0 ==> r == v00
    ensures sx == 1.0 && sy == 0.0 ==> r == v10
    ensures sx == 0.0 && sy == 1.0 ==> r == v01
    ensures sx == 1.0 && sy == 1.0 ==> r == v11
  {
    Lerp(Lerp(v00, v10, sx), Lerp(v01, v11, sx), sy)
  }

  /** For fractions in [0, 1] the blend is a convex combination of the corners:
      it stays within any interval holding all four. */
  lemma BlendConvex(v00: real, v10: real, v01: real, v11: real, sx: real, sy: real, lo: real, hi: real)
    requires 0.0 <= sx <= 1.0 && 0.0 <= sy <= 1.0
    requires lo <= v00 <= hi && lo <= v10 <= hi && lo <= v01 <= hi && lo <= v11 <= hi
    ensures lo <= Blend(v00, v10, v01, v11, sx, sy) <= hi
  {
    LerpBetween(v00, v10, sx, lo, hi);
    LerpBetween(v01, v11, sx, lo, hi);
    LerpBetween(Lerp(v00, v10, sx), Lerp(v01, v11, sx), sy, lo, hi);
  }

  /** The blend at the lattice-space point (X, Y): the part of sample after x *= freq, y *= freq. */
  function SampleLattice(n: Noise, X: real, Y: real): real
    requires Valid(n)
  {
    var ix0, iy0 := X.Floor, Y.Floor;
    var sx, sy := Smoothstep(X - ix0 as real), Smoothstep(Y - iy0 as real);
    Blend(Lookup(n, ix0, iy0), Lookup(n, ix0 + 1, iy0),
          Lookup(n, ix0, iy0 + 1), Lookup(n, ix0 + 1, iy0 + 1), sx, sy)
  }

  /** ValueNoise2D.sample(x, y, freq) */
  function Sample(n: Noise, x: real, y: real, freq: real): real
    requires Valid(n)
  {
    SampleLattice(n, x * freq, y * freq)
  }

  /** With every grid value in [0, 1), every blend is in [0, 1). */
  lemma SampleLatticeInUnit(n: Noise, X: real, Y: real)
    requires Valid(n) && GridInUnit(n)
    ensures 0.0 <= SampleLattice(n, X, Y) < 1.0
  {
    var ix0, iy0 := X.Floor, Y.Floor;
    var sx, sy := Smoothstep(X - ix0 as real), Smoothstep(Y - iy0 as real);
    var v00, v10 := Lookup(n, ix0, iy0), Lookup(n, ix0 + 1, iy0);
    var v01, v11 := Lookup(n, ix0, iy0 + 1), Lookup(n, ix0 + 1, iy0 + 1);
    SmoothstepRange(X - ix0 as real);
    SmoothstepRange(Y - iy0 as real);
    var hi := Max4(v00, v10, v01, v11);
    BlendConvex(v00, v10, v01, v11, sx, sy, 0.0, hi);
  }

  /** With every grid value in [0, 1), every sample is in [0, 1), at any point and frequency. */
  lemma SampleInUnit(n: Noise, x: real, y: real, freq: real)
    requires Valid(n) && GridInUnit(n)
    ensures 0.0 <= Sample(n, x, y, freq) < 1.0
  {
    SampleLatticeInUnit(n, x * freq, y * freq);
  }

  function Max4(a: real, b: real, c: real, d: real): (m: real)
    ensures a <= m && b <= m && c <= m && d <= m
    ensures m == a || m == b || m == c || m == d
  {
    var ab := if a <= b then b else a;
    var cd := if c <= d then d else c;
    if ab <= cd then cd else ab
  }

  /** At a lattice point the sample is the grid value there. */
  lemma SampleAtLattice(n: Noise, ix: int, iy: int)
    requires Valid(n)
    ensures Sample(n, ix as real, iy as real, 1.0) == Lookup(n, ix, iy)
  {
    assert ix as real * 1.0 == ix as real && iy as real * 1.0 == iy as real;
    assert (ix as real).Floor == ix && (iy as real).Floor == iy;
    SmoothstepRange(0.0);
  }

  /** Moving by the period in lattice space reads the same four corners with the same fractions. */
  lemma SampleLatticeTiles(n: Noise, X: real, Y: real)
    requires Valid(n)
    ensures SampleLattice(n, X + n.period as real, Y) == SampleLattice(n, X, Y)
    ensures SampleLattice(n, X, Y + n.period as real) == SampleLattice(n, X, Y)
  {
    var p := n.period;
    var ix0, iy0 := X.Floor, Y.Floor;
    assert (X + p as real).Floor == ix0 + p;
    assert (Y + p as real).Floor == iy0 + p;
    assert (X + p as real) - (ix0 + p) as real == X - ix0 as real;
    assert (Y + p as real) - (iy0 + p) as real == Y - iy0 as real;
    GridIndexPeriodic(p, ix0, iy0);
    GridIndexPeriodic(p, ix0 + 1, iy0);
    GridIndexPeriodic(p, ix0, iy0 + 1);
    GridIndexPeriodic(p, ix0 + 1, iy0 + 1);
  }

  /** The field tiles: moving by one period (in sample space) in either axis gives the same value. */
  lemma SampleTiles(n: Noise, x: real, y: real, freq: real)
    requires Valid(n) && freq != 0.0
    ensures Sample(n, x + n.period as real / freq, y, freq) == Sample(n, x, y, freq)
    ensures Sample(n, x, y + n.period as real / freq, freq) == Sample(n, x, y, freq)
  {
    var p := n.period as real;
    ShiftScaled(x, p, freq);
    ShiftScaled(y, p, freq);
    SampleLatticeTiles(n, x * freq, y * freq);
  }

  /** Scaling x + p / freq by freq shifts x * freq by p. */
  lemma ShiftScaled(x: real, p: real, freq: real)
    requires freq != 0.0
    ensures (x + p / freq) * freq == x * freq + p
  {
    assert (p / freq) * freq == p;
  }
}
