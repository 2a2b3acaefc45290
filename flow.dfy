/**
  The flow-field engine of astonish.py: a three-octave fractal angle field
  over the value noise, a ring of particles integrated through it with
  damped velocity and a soft bounce at the edges, and colour trails
  deposited into the accumulation buffer.
*/
module FlowField {
  import opened Arith
  import opened ValueNoise
  import opened ImageBuffer

  /** math.pi */
  const Pi: real := 3.141592653589793

  // ---------------------------------------------------------------------
  // flow_angle
  // ---------------------------------------------------------------------

  /** The amplitude of octave i: 1.0 halved i times. */
  function Amp(i: nat): (a: real)
    ensures 0.0 < a <= 1.0
  {
    if i == 0 then 1.0 else Amp(i - 1) * 0.5
  }

  /** 2 ** i, the frequency multiplier of octave i; its amplitude is its reciprocal,
      so the octaves follow a 1 / f spectrum. */
  function Pow2(i: nat): (p: nat)
    ensures p as real * Amp(i) == 1.0
  {
    if i == 0 then 1
    else
      var q := Pow2(i - 1);
      assert (2 * q) as real * (Amp(i - 1) * 0.5) == q as real * Amp(i - 1);
      2 * q
  }

  /** (val, norm) after the first k octaves: the amplitude-weighted sum of
      the samples at frequency 2 ** i / scale and the sum of the amplitudes.
      at(f) is the noise sampled at the particle's position with frequency f. */
  function Octaves(at: real -> real, scale: real, k: nat): (real, real)
    requires k == 0 || scale != 0.0
  {
    if k == 0 then (0.0, 0.0)
    else
      var prev := Octaves(at, scale, k - 1);
      (prev.0 + Amp(k - 1) * at(Pow2(k - 1) as real / scale), prev.1 + Amp(k - 1))
  }

  /** One more octave adds amp * v to val and amp to norm, and halves amp. */
  lemma OctavesStep(at: real -> real, scale: real, i: nat, amp: real, v: real)
    requires scale != 0.0 && amp == Amp(i) && v == at(Pow2(i) as real / scale)
    ensures Octaves(at, scale, i + 1).0 == Octaves(at, scale, i).0 + amp * v
    ensures Octaves(at, scale, i + 1).1 == Octaves(at, scale, i).1 + amp
    ensures Amp(i + 1) == amp * 0.5
  {
  }

  /** Every sample lies in [0, 1). */
  ghost predicate SamplesInUnit(at: real -> real) {
    forall f :: 0.0 <= at(f) < 1.0
  }

  /** val / max(1e-6, norm) mapped from [0, 1) onto [-pi, pi). */
  function AngleOf(val: real, norm: real): real {
    (val / Max(0.000001, norm) * 2.0 - 1.0) * Pi
  }

  /** The amplitudes form a geometric series: norm == 2 - 2 * 0.5 ** k. */
  lemma {:induction false} NormClosedForm(at: real -> real, scale: real, k: nat)
    requires k == 0 || scale != 0.0
    ensures Octaves(at, scale, k).1 == 2.0 - 2.0 * Amp(k)
  {
    if k > 0 {
      NormClosedForm(at, scale, k - 1);
    }
  }

  /** With every sample in [0, 1) the weighted sum is below the total weight. */
  lemma {:induction false} OctavesBounded(at: real -> real, scale: real, k: nat)
    requires SamplesInUnit(at) && (k == 0 || scale != 0.0)
    ensures 0.0 <= Octaves(at, scale, k).0 <= Octaves(at, scale, k).1
    ensures k > 0 ==> Octaves(at, scale, k).0 < Octaves(at, scale, k).1
  {
    if k > 0 {
      OctavesBounded(at, scale, k - 1);
      var prev := Octaves(at, scale, k - 1);
      var a, v := Amp(k - 1), at(Pow2(k - 1) as real / scale);
      assert 0.0 <= v < 1.0;
      OctavesStep(at, scale, k - 1, a, v);
      AccumulateOctave(prev.0, prev.1, a, v);
    }
  }

  /** Adding a sample in [0, 1) with a positive weight keeps the weighted sum below the total weight. */
  lemma AccumulateOctave(val: real, norm: real, a: real, v: real)
    requires 0.0 <= val <= norm && a > 0.0 && 0.0 <= v < 1.0
    ensures 0.0 <= val + a * v < norm + a
  {
    RealMulNonNeg(a, v);
    RealMulPos(a, 1.0 - v);
    assert a * (1.0 - v) == a - a * v;
  }

  /** The angle of a field whose samples are in [0, 1) lies in [-pi, pi). */
  lemma AngleInRange(at: real -> real, scale: real, k: nat)
    requires SamplesInUnit(at) && (k == 0 || scale != 0.0)
    ensures -Pi <= AngleOf(Octaves(at, scale, k).0, Octaves(at, scale, k).1) < Pi
  {
    var (val, norm) := Octaves(at, scale, k);
    OctavesBounded(at, scale, k);
    NormClosedForm(at, scale, k);
    if k == 0 {
      assert val == 0.0;
    } else {
      assert Amp(k) <= 0.5 by {
        assert Amp(k) == Amp(k - 1) * 0.5;
      }
      assert Max(0.000001, norm) == norm;
      RealDivBounds(val, norm);
    }
  }

  /** The noise at (x, y) as a function of the frequency. */
  function SampleAt(n: Noise, x: real, y: real): (at: real -> real)
    requires Valid(n)
    ensures GridInUnit(n) ==> SamplesInUnit(at)
  {
    SamplesOfUnitGrid(n, x, y);
    f => Sample(n, x, y, f)
  }

  lemma SamplesOfUnitGrid(n: Noise, x: real, y: real)
    requires Valid(n)
    ensures GridInUnit(n) ==> forall f :: 0.0 <= Sample(n, x, y, f) < 1.0
  {
    if GridInUnit(n) {
      forall f ensures 0.0 <= Sample(n, x, y, f) < 1.0 {
        SampleInUnit(n, x, y, f);
      }
    }
  }

  /** flow_angle: the octave loop accumulates amp, val and norm, then normalises.
      The noise at the particle's position is passed as at = SampleAt(noise, x, y),
      so at(f) is noise.sample(x, y, f). */
  method FlowAngle(at: real -> real, scale: real, octaves: int) returns (angle: real)
    requires octaves <= 0 || scale != 0.0
    ensures angle == AngleOf(Octaves(at, scale, Clip(octaves)).0, Octaves(at, scale, Clip(octaves)).1)
    ensures SamplesInUnit(at) ==> -Pi <= angle < Pi
  {
    var amp, val, norm := 1.0, 0.0, 0.0;
    var i := 0;
    while i < octaves
      invariant 0 <= i <= Clip(octaves)
      invariant amp == Amp(i)
      invariant val == Octaves(at, scale, i).0 && norm == Octaves(at, scale, i).1
    {
      var f := Pow2(i) as real / scale;
      var v := at(f);
      OctavesStep(at, scale, i, amp, v);
      val := val + amp * v;
      norm := norm + amp;
      amp := amp * 0.5;
      i := i + 1;
    }
    assert i == Clip(octaves);
    ghost var val0 := val;
    val := val / Max(0.000001, norm);
    angle := (val * 2.0 - 1.0) * Pi;
    assert angle == AngleOf(val0, norm);
    if SamplesInUnit(at) {
      AngleInRange(at, scale, Clip(octaves));
    }
  }

  /** The number of passes of range(k). */
  function Clip(k: int): nat {
    if k > 0 then k else 0
  }

  // ---------------------------------------------------------------------
  // The palette
  // ---------------------------------------------------------------------

  const Midnight: Color := (0.06, 0.10, 0.30)
  const Cyan: Color := (0.00, 0.75, 0.75)
  const Amber: Color := (0.95, 0.70, 0.20)

  /** Component-wise linear blend from a (u = 0) to b (u = 1). */
  function Mix(a: Color, b: Color, u: real): (m: Color)
    ensures u == 0.0 ==> m == a
    ensures u == 1.0 ==> m == b
  {
    (Lerp(a.0, b.0, u), Lerp(a.1, b.1, u), Lerp(a.2, b.2, u))
  }

  /** palette(t): midnight blue to cyan on [0, 0.5), cyan to amber on [0.5, 1]. */
  function Palette(t: real): Color {
    if t < 0.5 then Mix(Midnight, Cyan, t * 2.0) else Mix(Cyan, Amber, (t - 0.5) * 2.0)
  }

  predicate Between(v: real, a: real, b: real) {
    (a <= v <= b) || (b <= v <= a)
  }

  predicate BetweenColors(c: Color, a: Color, b: Color) {
    Between(c.0, a.0, b.0) && Between(c.1, a.1, b.1) && Between(c.2, a.2, b.2)
  }

  /** The gradient starts at midnight blue, passes cyan at the midpoint (from both
      sides: the first segment ends there too) and ends at amber; on [0, 1]
      each component lies between the two stops of its segment. */
  lemma PaletteStops(t: real)
    ensures Palette(0.0) == Midnight && Palette(0.5) == Cyan && Palette(1.0) == Amber
    ensures Mix(Midnight, Cyan, 0.5 * 2.0) == Cyan
    ensures 0.0 <= t < 0.5 ==> BetweenColors(Palette(t), Midnight, Cyan)
    ensures 0.5 <= t <= 1.0 ==> BetweenColors(Palette(t), Cyan, Amber)
  {
  }

  /** Every palette colour for t in [0, 1] has components in [0, 1]. */
  lemma PaletteInUnit(t: real)
    requires 0.0 <= t <= 1.0
    ensures 0.0 <= Palette(t).0 <= 1.0 && 0.0 <= Palette(t).1 <= 1.0 && 0.0 <= Palette(t).2 <= 1.0
  {
    if t < 0.5 {
      LerpBetween(Midnight.0, Cyan.0, t * 2.0, 0.0, 1.0);
      LerpBetween(Midnight.1, Cyan.1, t * 2.0, 0.0, 1.0);
      LerpBetween(Midnight.2, Cyan.2, t * 2.0, 0.0, 1.0);
    } else {
      LerpBetween(Cyan.0, Amber.0, (t - 0.5) * 2.0, 0.0, 1.0);
      LerpBetween(Cyan.1, Amber.1, (t - 0.5) * 2.0, 0.0, 1.0);
      LerpBetween(Cyan.2, Amber.2, (t - 0.5) * 2.0, 0.0, 1.0);
    }
  }

  /** t = s / max(1, steps - 1) */
  function Progress(s: int, steps: int): (t: real)
    ensures 0 <= s < steps ==> 0.0 <= t <= 1.0
  {
    var d := if steps - 1 > 1 then steps - 1 else 1;
    RealDivBounds(s as real, d as real);
    assert 0 <= s < steps ==> s <= d;
    s as real / d as real
  }

  // ---------------------------------------------------------------------
  // Particles
  // ---------------------------------------------------------------------

  /** The x, y, vx, vy of a Particle at one moment. */
  datatype Motion = Motion(x: real, y: real, vx: real, vy: real)

  /** One step of one particle: v = (v + a) * 0.98; p += v; a coordinate
      outside [1, size - 1) reverses and damps that velocity by -0.6.
      The position itself is not clamped back inside. */
  function Advance(m: Motion, ax: real, ay: real, w: int, h: int): Motion {
    var vx, vy := (m.vx + ax) * 0.98, (m.vy + ay) * 0.98;
    var x, y := m.x + vx, m.y + vy;
    Motion(x, y,
      if x < 1.0 || x >= (w - 1) as real then vx * -0.6 else vx,
      if y < 1.0 || y >= (h - 1) as real then vy * -0.6 else vy)
  }

  /** Damping bounds the speed: with |a| <= A per axis, a velocity within 49 * A stays within 49 * A. */
  lemma AdvanceKeepsSpeedBound(m: Motion, ax: real, ay: real, w: int, h: int, A: real)
    requires Abs(ax) <= A && Abs(ay) <= A
    requires Abs(m.vx) <= 49.0 * A && Abs(m.vy) <= 49.0 * A
    ensures Abs(Advance(m, ax, ay, w, h).vx) <= 49.0 * A
    ensures Abs(Advance(m, ax, ay, w, h).vy) <= 49.0 * A
  {
  }

  /** The soft bounce: outside the margin the velocity keeps 60% of its size and
      points the other way; inside it is the damped velocity.  The move uses the
      damped velocity from before the bounce. */
  lemma AdvanceBounce(m: Motion, ax: real, ay: real, w: int, h: int)
    ensures var m' := Advance(m, ax, ay, w, h); var vx := (m.vx + ax) * 0.98;
      m'.x == m.x + vx &&
      ((m'.x < 1.0 || m'.x >= (w - 1) as real) ==> Abs(m'.vx) == 0.6 * Abs(vx) && m'.vx * vx <= 0.0) &&
      (1.0 <= m'.x < (w - 1) as real ==> m'.vx == vx)
    ensures var m' := Advance(m, ax, ay, w, h); var vy := (m.vy + ay) * 0.98;
      m'.y == m.y + vy &&
      ((m'.y < 1.0 || m'.y >= (h - 1) as real) ==> Abs(m'.vy) == 0.6 * Abs(vy) && m'.vy * vy <= 0.0) &&
      (1.0 <= m'.y < (h - 1) as real ==> m'.vy == vy)
  {
    Reversed((m.vx + ax) * 0.98);
    Reversed((m.vy + ay) * 0.98);
  }

  /** A reversed, damped velocity v * -0.6 keeps 60% of the size of v and the opposite sign. */
  lemma Reversed(v: real)
    ensures Abs(v * -0.6) == 0.6 * Abs(v) && v * -0.6 * v <= 0.0
  {
    assert v * -0.6 * v == -0.6 * (v * v);
    assert v * v >= 0.0 by {
      if v < 0.0 {
        RealMulNonNeg(-v, -v);
      } else {
        RealMulNonNeg(v, v);
      }
    }
  }

  class Particle {
    var x: real
    var y: real
    var vx: real
    var vy: real

    constructor (x: real, y: real)
      ensures State() == Motion(x, y, 0.0, 0.0)
    {
      this.x, this.y := x, y;
      vx, vy := 0.0, 0.0;
    }

    function State(): Motion
      reads this
    {
      Motion(x, y, vx, vy)
    }

    /** The loop body of render_flow_field that updates p in place. */
    method Step(ax: real, ay: real, w: int, h: int)
      modifies this
      ensures State() == Advance(old(State()), ax, ay, w, h)
    {
      vx := (vx + ax) * 0.98;
      vy := (vy + ay) * 0.98;
      x := x + vx;
      y := y + vy;
      if x < 1.0 || x >= (w - 1) as real {
        vx := vx * -0.6;
      }
      if y < 1.0 || y >= (h - 1) as real {
        vy := vy * -0.6;
      }
    }
  }

  /** Python's int() on a float: truncation toward zero. */
  function Trunc(v: real): (i: int)
    ensures v >= 0.0 ==> 0 <= i && i as real <= v < i as real + 1.0
    ensures v < 0.0 ==> i <= 0 && i as real - 1.0 < v <= i as real
  {
    if v >= 0.0 then v.Floor else -((-v).Floor)
  }

  /** Unlike floor, truncation sends (-1, 0) to 0, so such positions deposit at column or row 0. */
  lemma TruncOfSmallNegative(v: real)
    requires -1.0 < v < 0.0
    ensures Trunc(v) == 0 && v.Floor == -1
  {
  }

  /** The ring radius rad * (0.65 + 0.35 * u) lies in [0.65 * rad, rad] for u in [0, 1). */
  function RingRadius(rad: real, u: real): (r: real)
    ensures rad >= 0.0 && 0.0 <= u < 1.0 ==> 0.65 * rad <= r <= rad
  {
    RingFactorScales(rad, u);
    rad * (0.65 + 0.35 * u)
  }

  lemma RingFactorScales(rad: real, u: real)
    ensures rad >= 0.0 && 0.0 <= u < 1.0 ==> 0.65 * rad <= rad * (0.65 + 0.35 * u) <= rad
  {
    if rad >= 0.0 && 0.0 <= u < 1.0 {
      RealMulMonotone(0.65, 0.65 + 0.35 * u, rad);
      RealMulMonotone(0.65 + 0.35 * u, 1.0, rad);
    }
  }

  /** The weights of a particle's deposit at its own cell and at each of two neighbours. */
  const TrailCore: real := 0.015
  const TrailSide: real := 0.007

  /** The deposits of one particle at position (px, py): with (ix, iy) the truncated
      position, 0.015 of the colour at (ix, iy) and 0.007 at (ix + 1, iy) and at
      (ix, iy + 1), each capped at 1.0 and skipped outside the image. */
  method DepositTrail(img: Image, px: real, py: real, col: Color)
    requires img.Valid() && img.AllInUnit()
    requires 0.0 <= col.0 && 0.0 <= col.1 && 0.0 <= col.2
    modifies img
    ensures img.Valid() && img.AllInUnit()
    ensures img.r == Trail(old(img.r), img.w, img.h, Trunc(px), Trunc(py), col.0 * TrailCore, col.0 * TrailSide)
    ensures img.g == Trail(old(img.g), img.w, img.h, Trunc(px), Trunc(py), col.1 * TrailCore, col.1 * TrailSide)
    ensures img.b == Trail(old(img.b), img.w, img.h, Trunc(px), Trunc(py), col.2 * TrailCore, col.2 * TrailSide)
    ensures NoDarker(old(img.r), img.r) && NoDarker(old(img.g), img.g) && NoDarker(old(img.b), img.b)
  {
    var ix, iy := Trunc(px), Trunc(py);
    ghost var core := (col.0 * TrailCore, col.1 * TrailCore, col.2 * TrailCore);
    ghost var side := (col.0 * TrailSide, col.1 * TrailSide, col.2 * TrailSide);
    RealMulNonNeg(col.0, TrailCore);
    RealMulNonNeg(col.1, TrailCore);
    RealMulNonNeg(col.2, TrailCore);
    RealMulNonNeg(col.0, TrailSide);
    RealMulNonNeg(col.1, TrailSide);
    RealMulNonNeg(col.2, TrailSide);
    ghost var r0, g0, b0 := img.r, img.g, img.b;
    Brighten(img, ix, iy, col, TrailCore, core);
    ghost var r1, g1, b1 := img.r, img.g, img.b;
    Brighten(img, ix + 1, iy, col, TrailSide, side);
    ghost var r2, g2, b2 := img.r, img.g, img.b;
    Brighten(img, ix, iy + 1, col, TrailSide, side);
    TrailOfSteps(r0, r1, r2, img.r, img.w, img.h, ix, iy, core.0, side.0);
    TrailOfSteps(g0, g1, g2, img.g, img.w, img.h, ix, iy, core.1, side.1);
    TrailOfSteps(b0, b1, b2, img.b, img.w, img.h, ix, iy, core.2, side.2);
  }

  /** One channel of a particle's deposits: core at (ix, iy), then side at (ix + 1, iy)
      and at (ix, iy + 1), each through DepositAt. */
  function Trail(s: seq<real>, w: int, h: int, ix: int, iy: int, core: real, side: real): (t: seq<real>)
    requires |s| == Cells(w, h)
    ensures |t| == |s|
  {
    var s1 := DepositAt(s, w, h, ix, iy, core);
    var s2 := DepositAt(s1, w, h, ix + 1, iy, side);
    DepositAt(s2, w, h, ix, iy + 1, side)
  }

  /** The heavy deposit followed by the two light ones is the trail; with non-negative
      weights it keeps a channel inside [0, 1] and darkens no entry. */
  lemma TrailOfSteps(s0: seq<real>, s1: seq<real>, s2: seq<real>, s3: seq<real>,
                     w: int, h: int, ix: int, iy: int, core: real, side: real)
    requires |s0| == Cells(w, h)
    requires s1 == DepositAt(s0, w, h, ix, iy, core)
    requires s2 == DepositAt(s1, w, h, ix + 1, iy, side)
    requires s3 == DepositAt(s2, w, h, ix, iy + 1, side)
    ensures s3 == Trail(s0, w, h, ix, iy, core, side)
    ensures InUnit(s0) && core >= 0.0 && side >= 0.0 ==> InUnit(s3) && NoDarker(s0, s3)
  {
    if InUnit(s0) && core >= 0.0 && side >= 0.0 {
      DepositAtKeepsInUnit(s0, w, h, ix, iy, core);
      DepositAtKeepsInUnit(s1, w, h, ix + 1, iy, side);
      DepositAtKeepsInUnit(s2, w, h, ix, iy + 1, side);
      NoDarkerChain(s0, s1, s2, s3);
    }
  }

  /** Away from the right and bottom edges the trail raises exactly three entries: the
      particle's own cell by core and the cells to its right and below it by side, each
      capped at 1.0. */
  lemma TrailAtCells(s: seq<real>, w: int, h: int, ix: int, iy: int, core: real, side: real)
    requires |s| == Cells(w, h)
    requires 0 <= ix && ix + 1 < w && 0 <= iy && iy + 1 < h
    ensures 0 <= iy * w + ix && iy * w + ix + 1 < |s| && (iy + 1) * w + ix < |s|
    ensures Trail(s, w, h, ix, iy, core, side)[iy * w + ix] == Min(1.0, s[iy * w + ix] + core)
    ensures Trail(s, w, h, ix, iy, core, side)[iy * w + ix + 1] == Min(1.0, s[iy * w + ix + 1] + side)
    ensures Trail(s, w, h, ix, iy, core, side)[(iy + 1) * w + ix] == Min(1.0, s[(iy + 1) * w + ix] + side)
    ensures forall j :: 0 <= j < |s| && j != iy * w + ix && j != iy * w + ix + 1 && j != (iy + 1) * w + ix ==>
      Trail(s, w, h, ix, iy, core, side)[j] == s[j]
  {
    var a, b, c := iy * w + ix, iy * w + ix + 1, (iy + 1) * w + ix;
    assert c == a + w;
    var s1 := DepositAt(s, w, h, ix, iy, core);
    var s2 := DepositAt(s1, w, h, ix + 1, iy, side);
    DepositAtSpec(s, w, h, ix, iy, core);
    DepositAtSpec(s1, w, h, ix + 1, iy, side);
    DepositAtSpec(s2, w, h, ix, iy + 1, side);
  }

  /** One img.add(x, y, col, k); amount names the weighted colour col * k. */
  method Brighten(img: Image, x: int, y: int, col: Color, k: real, ghost amount: Color)
    requires img.Valid()
    requires amount == (col.0 * k, col.1 * k, col.2 * k)
    modifies img
    ensures img.Valid()
    ensures img.r == DepositAt(old(img.r), img.w, img.h, x, y, amount.0)
    ensures img.g == DepositAt(old(img.g), img.w, img.h, x, y, amount.1)
    ensures img.b == DepositAt(old(img.b), img.w, img.h, x, y, amount.2)
  {
    img.Add(x, y, col, k);
    if 0 <= y {
      RowStartIsProduct(img.w, y);
    }
  }

  lemma NoDarkerChain(s0: seq<real>, s1: seq<real>, s2: seq<real>, s3: seq<real>)
    requires NoDarker(s0, s1) && NoDarker(s1, s2) && NoDarker(s2, s3)
    ensures NoDarker(s0, s3)
  {
  }

  function MinInt(a: int, b: int): int { if a <= b then a else b }

  /** render_flow_field.  The random draws are inputs: draws[i] holds the two
      rng.random() values of particle i, noise the seeded period-1024 field;
      cos and sin stand for math.cos and math.sin. */
  method RenderFlowField(w: int, h: int, steps: int, draws: seq<(real, real)>, noise: Noise,
                         strength: real, cos: real -> real, sin: real -> real)
    returns (img: Image)
    requires Valid(noise) && noise.period == 1024
    ensures img.w == w && img.h == h && img.Valid()
    ensures img.AllInUnit()
  {
    img := new Image.New(w, h, (0.0, 0.0, 0.0));
    var particles: seq<Particle> := [];
    var cx, cy := w as real * 0.5, h as real * 0.5;
    var rad := MinInt(w, h) as real * 0.35;
    var i := 0;
    while i < |draws|
      invariant 0 <= i <= |draws| && |particles| == i
      invariant forall q :: q in particles ==> fresh(q)
      invariant fresh(img) && img.w == w && img.h == h && img.Valid() && img.AllInUnit()
    {
      var ang := draws[i].0 * 2.0 * Pi;
      var r := RingRadius(rad, draws[i].1);
      var p := new Particle(cx + r * cos(ang), cy + r * sin(ang));
      particles := particles + [p];
      i := i + 1;
    }
    var scale := 350.0;
    var s := 0;
    while s < steps
      invariant forall q :: q in particles ==> fresh(q)
      invariant fresh(img) && img.w == w && img.h == h && img.Valid() && img.AllInUnit()
    {
      var t := Progress(s, steps);
      var col := Palette(t);
      PaletteInUnit(t);
      var j := 0;
      while j < |particles|
        invariant 0 <= j <= |particles|
        invariant forall q :: q in particles ==> fresh(q)
        invariant fresh(img) && img.w == w && img.h == h && img.Valid() && img.AllInUnit()
      {
        var p := particles[j];
        assert p in particles;
        var ang := FlowAngle(SampleAt(noise, p.x, p.y), scale, 3);
        var ax, ay := cos(ang) * strength, sin(ang) * strength;
        p.Step(ax, ay, w, h);
        DepositTrail(img, p.x, p.y, col);
        j := j + 1;
      }
      s := s + 1;
    }
  }
}
