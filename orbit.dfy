/**
  The orbit-trap Mandelbrot renderer of astonish.py: for every pixel the
  escape-time loop z <- z * z + c runs up to iters times, tracking the
  smallest distance of the orbit to a circular trap and the iteration at
  which |z| ** 2 first exceeds 4; the two drive a fixed colour map.
*/
module OrbitTrap {
  import opened Arith
  import opened ImageBuffer

  datatype Complex = Complex(re: real, im: real)

  /** z * z + c, with the real and imaginary parts as the loop computes them. */
  function Step(z: Complex, c: Complex): Complex {
    Complex(z.re * z.re - z.im * z.im + c.re, 2.0 * z.re * z.im + c.im)
  }

  /** The orbit of 0 under z <- z * z + c: Orbit(c, k) is z after k passes. */
  function Orbit(c: Complex, k: nat): Complex {
    if k == 0 then Complex(0.0, 0.0) else Step(Orbit(c, k - 1), c)
  }

  /** The break test: zr * zr + zi * zi > 4. */
  predicate Escaped(z: Complex) {
    z.re * z.re + z.im * z.im > 4.0
  }

  /** The trap circle: radius trap_r around (trap_cx, trap_cy). */
  datatype Trap = Trap(radius: real, cx: real, cy: real)

  /** The trap drawn from three rng.random() values. */
  function TrapOf(u0: real, u1: real, u2: real): (t: Trap)
    ensures 0.0 <= u0 < 1.0 ==> 0.15 <= t.radius < 0.25
    ensures 0.0 <= u1 < 1.0 ==> -0.05 <= t.cx < 0.05
    ensures 0.0 <= u2 < 1.0 ==> -0.05 <= t.cy < 0.05
  {
    Trap(0.15 + 0.10 * u0, 0.0 + (u1 - 0.5) * 0.1, 0.0 + (u2 - 0.5) * 0.1)
  }

  /** abs(hypot(zr - trap_cx, zi - trap_cy) - trap_r); hypot stands for math.hypot. */
  function TrapDistance(z: Complex, trap: Trap, hypot: (real, real) -> real): (d: real)
    ensures d >= 0.0
  {
    Abs(hypot(z.re - trap.cx, z.im - trap.cy) - trap.radius)
  }

  // ---------------------------------------------------------------------
  // What the escape-time loop computes
  // ---------------------------------------------------------------------

  /** The final n of `for n in range(iters)` once pass j has been reached
      without a break: pass j breaks when Orbit(c, j + 1) has escaped, and
      the last pass leaves n at iters - 1. */
  function EscapeFrom(c: Complex, j: nat, iters: int): (n: int)
    requires j < iters
    ensures j <= n <= iters - 1
    decreases iters - j
  {
    if Escaped(Orbit(c, j + 1)) || j == iters - 1 then j else EscapeFrom(c, j + 1, iters)
  }

  /** The n handed to colorize: 0 when the loop does not run. */
  function EscapeCount(c: Complex, iters: int): (n: int)
    ensures iters <= 0 ==> n == 0
  {
    if iters <= 0 then 0 else EscapeFrom(c, 0, iters)
  }

  /** The number of passes the loop makes. */
  function Iterations(c: Complex, iters: int): (k: nat)
    ensures iters <= 0 ==> k == 0
  {
    if iters <= 0 then 0 else EscapeFrom(c, 0, iters) + 1
  }

  /** mind after k passes: 1e9 lowered to each trap distance along the orbit. */
  function MinTrap(c: Complex, trap: Trap, hypot: (real, real) -> real, k: nat): real {
    if k == 0 then 1000000000.0
    else
      var prev := MinTrap(c, trap, hypot, k - 1);
      var d := TrapDistance(Orbit(c, k), trap, hypot);
      if d < prev then d else prev
  }

  /** From pass j on, the loop stops at the first escaping pass, or at the last one. */
  lemma {:induction false} EscapeFromSpec(c: Complex, j: nat, iters: int)
    requires j < iters
    ensures forall k :: j < k <= EscapeFrom(c, j, iters) ==> !Escaped(Orbit(c, k))
    ensures Escaped(Orbit(c, EscapeFrom(c, j, iters) + 1)) || EscapeFrom(c, j, iters) == iters - 1
    decreases iters - j
  {
    if !(Escaped(Orbit(c, j + 1)) || j == iters - 1) {
      EscapeFromSpec(c, j + 1, iters);
    }
  }

  /** With iters >= 1: 0 <= n <= iters - 1, no orbit point before pass n has
      escaped, and pass n escapes unless it is the last pass. */
  lemma EscapeCountSpec(c: Complex, iters: int)
    requires iters >= 1
    ensures 0 <= EscapeCount(c, iters) <= iters - 1
    ensures forall k :: 1 <= k <= EscapeCount(c, iters) ==> !Escaped(Orbit(c, k))
    ensures Escaped(Orbit(c, EscapeCount(c, iters) + 1)) || EscapeCount(c, iters) == iters - 1
    ensures Iterations(c, iters) == EscapeCount(c, iters) + 1
  {
    EscapeFromSpec(c, 0, iters);
  }

  /** The first escaping pass is the recorded n. */
  lemma FirstEscape(c: Complex, iters: int, m: nat)
    requires m < iters
    requires Escaped(Orbit(c, m + 1))
    requires forall k :: 1 <= k <= m ==> !Escaped(Orbit(c, k))
    ensures EscapeCount(c, iters) == m
  {
    EscapeCountSpec(c, iters);
  }

  /** An orbit that never escapes within the first iters - 1 passes ends with
      n == iters - 1, not iters. */
  lemma NeverEscapes(c: Complex, iters: int)
    requires iters >= 1
    requires forall k :: 1 <= k < iters ==> !Escaped(Orbit(c, k))
    ensures EscapeCount(c, iters) == iters - 1
  {
    EscapeCountSpec(c, iters);
  }

  /** A c with c * c + c == 0 and 0 * 0 + c == c has the period-two orbit 0, c, 0, c, ... */
  lemma {:induction false} PeriodTwoOrbit(c: Complex, m: nat)
    requires Step(c, c) == Complex(0.0, 0.0) && Step(Complex(0.0, 0.0), c) == c
    ensures Orbit(c, 2 * m) == Complex(0.0, 0.0)
    ensures Orbit(c, 2 * m + 1) == c
  {
    if m > 0 {
      PeriodTwoOrbit(c, m - 1);
    }
  }

  /** Every point of such a period-two orbit is 0 or c. */
  lemma PeriodTwoPoint(c: Complex, k: nat)
    requires Step(c, c) == Complex(0.0, 0.0) && Step(Complex(0.0, 0.0), c) == c
    ensures Orbit(c, k) == Complex(0.0, 0.0) || Orbit(c, k) == c
  {
    PeriodTwoOrbit(c, k / 2);
    Halves(k);
  }

  /** z * z - 1 sends -1 to 0 and 0 to -1. */
  lemma MinusOneSteps(c: Complex)
    requires c == Complex(-1.0, 0.0)
    ensures Step(c, c) == Complex(0.0, 0.0)
    ensures Step(Complex(0.0, 0.0), c) == c
  {
    assert c.re * c.re == 1.0;
  }

  /** Neither 0 nor -1 lies outside the radius-2 circle. */
  lemma MinusOneBounded(c: Complex)
    requires c == Complex(-1.0, 0.0)
    ensures !Escaped(c) && !Escaped(Complex(0.0, 0.0))
  {
  }

  /** A period-two orbit through two points inside the circle never breaks:
      the loop runs all iters passes. */
  lemma PeriodTwoNeverEscapes(c: Complex, iters: int)
    requires Step(c, c) == Complex(0.0, 0.0) && Step(Complex(0.0, 0.0), c) == c
    requires !Escaped(c) && !Escaped(Complex(0.0, 0.0)) && iters >= 1
    ensures EscapeCount(c, iters) == iters - 1
    ensures Iterations(c, iters) == iters
  {
    forall k | 1 <= k < iters
      ensures !Escaped(Orbit(c, k))
    {
      PeriodTwoPoint(c, k);
    }
    NeverEscapes(c, iters);
    EscapeCountSpec(c, iters);
  }

  /** For c = -1 the orbit is 0, -1, 0, -1, ... and the recorded n is iters - 1. */
  lemma MinusOneNeverEscapes(c: Complex, iters: int)
    requires c == Complex(-1.0, 0.0) && iters >= 1
    ensures EscapeCount(c, iters) == iters - 1
    ensures Iterations(c, iters) == iters
  {
    MinusOneSteps(c);
    MinusOneBounded(c);
    PeriodTwoNeverEscapes(c, iters);
  }

  /** mind stays in [0, 1e9], is at most every trap distance along the first
      k orbit points and, once the loop has run, equals one of them or 1e9. */
  lemma {:induction false} MinTrapBounds(c: Complex, trap: Trap, hypot: (real, real) -> real, k: nat)
    ensures 0.0 <= MinTrap(c, trap, hypot, k) <= 1000000000.0
    ensures forall j :: 1 <= j <= k ==> MinTrap(c, trap, hypot, k) <= TrapDistance(Orbit(c, j), trap, hypot)
    ensures MinTrap(c, trap, hypot, k) == 1000000000.0 ||
      exists j :: 1 <= j <= k && MinTrap(c, trap, hypot, k) == TrapDistance(Orbit(c, j), trap, hypot)
  {
    if k > 0 {
      MinTrapBounds(c, trap, hypot, k - 1);
      var d := TrapDistance(Orbit(c, k), trap, hypot);
      if d < MinTrap(c, trap, hypot, k - 1) {
        assert MinTrap(c, trap, hypot, k) == TrapDistance(Orbit(c, k), trap, hypot);
      }
    }
  }

  /** One pass of the loop body on (zr, zi) = Orbit(c, j). */
  lemma OrbitStep(c: Complex, j: nat, zr: real, zi: real)
    requires Orbit(c, j) == Complex(zr, zi)
    ensures Orbit(c, j + 1) == Complex(zr * zr - zi * zi + c.re, 2.0 * zr * zi + c.im)
  {
    assert Orbit(c, j + 1) == Step(Complex(zr, zi), c);
  }

  /** The per-pixel loop of render_orbit_trap: n and mind as handed to colorize. */
  method EscapeTime(c: Complex, iters: int, trap: Trap, hypot: (real, real) -> real)
    returns (mind: real, n: int)
    ensures n == EscapeCount(c, iters)
    ensures mind == MinTrap(c, trap, hypot, Iterations(c, iters))
  {
    var zr, zi := 0.0, 0.0;
    mind := 1000000000.0;
    n := 0;
    var j := 0;
    while j < iters
      invariant 0 <= j && (j <= iters || j == 0)
      invariant Orbit(c, j) == Complex(zr, zi)
      invariant mind == MinTrap(c, trap, hypot, j)
      invariant n == if j == 0 then 0 else j - 1
      invariant j < iters ==> EscapeFrom(c, j, iters) == EscapeCount(c, iters)
      invariant 0 < j == iters ==> EscapeCount(c, iters) == iters - 1
    {
      n := j;
      OrbitStep(c, j, zr, zi);
      var zr2 := zr * zr - zi * zi + c.re;
      zi := 2.0 * zr * zi + c.im;
      zr := zr2;
      var d := TrapDistance(Complex(zr, zi), trap, hypot);
      if d < mind {
        mind := d;
      }
      if Escaped(Complex(zr, zi)) {
        break;
      }
      j := j + 1;
    }
  }

  // ---------------------------------------------------------------------
  // colorize
  // ---------------------------------------------------------------------

  /** The colour map of proximity u and escape fraction v. */
  function Shade(u: real, v: real): Color {
    (0.2 + 0.8 * u,
     0.2 + 0.8 * (1.0 - Abs(0.5 - v) * 2.0),
     0.25 + 0.75 * (1.0 - u) * (0.4 + 0.6 * v))
  }

  /** For u, v in [0, 1]: r and g lie in [0.2, 1] and b in [0.25, 1]. */
  lemma ShadeRange(u: real, v: real)
    requires 0.0 <= u <= 1.0 && 0.0 <= v <= 1.0
    ensures 0.2 <= Shade(u, v).0 <= 1.0
    ensures 0.2 <= Shade(u, v).1 <= 1.0
    ensures 0.25 <= Shade(u, v).2 <= 1.0
  {
    var p := 0.75 * (1.0 - u);
    var q := 0.4 + 0.6 * v;
    RealMulNonNeg(p, q);
    RealMulMonotone(q, 1.0, p);
  }

  /** colorize(d, n): u = exp(-4 d), v = n / iters. */
  function Colorize(d: real, n: int, iters: int, exp: real -> real): Color
    requires iters != 0
  {
    Shade(exp(-4.0 * d), n as real / iters as real)
  }

  /** What math.exp delivers on non-positive arguments (0 once it underflows). */
  ghost predicate ExpBounded(exp: real -> real) {
    forall t :: t <= 0.0 ==> 0.0 <= exp(t) <= 1.0
  }

  /** The colour of an escape-time result has every channel in [0.2, 1]. */
  lemma ColorizeRange(c: Complex, trap: Trap, hypot: (real, real) -> real, iters: int, exp: real -> real)
    requires iters != 0 && ExpBounded(exp)
    ensures var col := Colorize(MinTrap(c, trap, hypot, Iterations(c, iters)), EscapeCount(c, iters), iters, exp);
      0.2 <= col.0 <= 1.0 && 0.2 <= col.1 <= 1.0 && 0.25 <= col.2 <= 1.0
  {
    var mind := MinTrap(c, trap, hypot, Iterations(c, iters));
    var n := EscapeCount(c, iters);
    MinTrapBounds(c, trap, hypot, Iterations(c, iters));
    if iters >= 1 {
      EscapeCountSpec(c, iters);
      RealDivBounds(n as real, iters as real);
    } else {
      assert n as real / iters as real == 0.0;
    }
    ShadeRange(exp(-4.0 * mind), n as real / iters as real);
  }

  // ---------------------------------------------------------------------
  // The view and the render
  // ---------------------------------------------------------------------

  const ViewScale: real := 3.0
  const CenterRe: real := -0.6
  const CenterIm: real := 0.0

  /** re = (x / w - 0.5) * scale + cx */
  function PixelRe(x: int, w: int): real
    requires w != 0
  {
    (x as real / w as real - 0.5) * ViewScale + CenterRe
  }

  /** im = (y / h - 0.5) * scale + cy */
  function PixelIm(y: int, h: int): real
    requires h != 0
  {
    (y as real / h as real - 0.5) * ViewScale + CenterIm
  }

  /** The window spans [-2.1, 0.9) by [-1.5, 1.5), with pixel (0, 0) at its lower-left corner. */
  lemma ViewWindow(x: int, w: int, y: int, h: int)
    requires 0 <= x < w && 0 <= y < h
    ensures -2.1 <= PixelRe(x, w) < 0.9 && -1.5 <= PixelIm(y, h) < 1.5
    ensures PixelRe(0, w) == -2.1 && PixelIm(0, h) == -1.5
  {
    RealDivBounds(x as real, w as real);
    RealDivBounds(y as real, h as real);
  }

  /** The fixed inputs of one render: size, iteration cap and trap. */
  datatype Scene = Scene(w: int, h: int, iters: int, trap: Trap)

  /** The colour deposited at pixel (x, y). */
  function PixelColor(s: Scene, exp: real -> real, hypot: (real, real) -> real, x: int, y: int): Color
    requires s.w != 0 && s.h != 0 && s.iters != 0
  {
    var c := Complex(PixelRe(x, s.w), PixelIm(y, s.h));
    Colorize(MinTrap(c, s.trap, hypot, Iterations(c, s.iters)), EscapeCount(c, s.iters), s.iters, exp)
  }

  /** Every pixel's colour has channels in [0.2, 1], so the deposit onto black keeps it. */
  lemma PixelColorInUnit(s: Scene, exp: real -> real, hypot: (real, real) -> real, x: int, y: int)
    requires s.w != 0 && s.h != 0 && s.iters != 0 && ExpBounded(exp)
    ensures var col := PixelColor(s, exp, hypot, x, y);
      Min(1.0, col.0) == col.0 && Min(1.0, col.1) == col.1 && Min(1.0, col.2) == col.2
      && 0.2 <= col.0 && 0.2 <= col.1 && 0.25 <= col.2
  {
    ColorizeRange(Complex(PixelRe(x, s.w), PixelIm(y, s.h)), s.trap, hypot, s.iters, exp);
  }

  /** Entries before position `done` (in row-major order) hold the capped
      colour paint gives their pixel; the rest are still black. */
  ghost predicate PaintedUpTo(img: Image, paint: (int, int) -> Color, done: int)
    reads img
    requires img.Valid() && img.w > 0
  {
    forall i :: 0 <= i < Cells(img.w, img.h) ==>
      if i < done then
        img.r[i] == Min(1.0, paint(i % img.w, i / img.w).0) &&
        img.g[i] == Min(1.0, paint(i % img.w, i / img.w).1) &&
        img.b[i] == Min(1.0, paint(i % img.w, i / img.w).2)
      else
        img.r[i] == 0.0 && img.g[i] == 0.0 && img.b[i] == 0.0
  }

  /** The colour map of a scene, black where render_orbit_trap paints nothing. */
  function SceneColors(s: Scene, exp: real -> real, hypot: (real, real) -> real): (paint: (int, int) -> Color)
  {
    (x: int, y: int) => if s.w != 0 && s.h != 0 && s.iters != 0 then PixelColor(s, exp, hypot, x, y) else (0.0, 0.0, 0.0)
  }

  function EscapeTimeMind(s: Scene, hypot: (real, real) -> real, x: int, y: int): real
    requires s.w != 0 && s.h != 0
  {
    var c := Complex(PixelRe(x, s.w), PixelIm(y, s.h));
    MinTrap(c, s.trap, hypot, Iterations(c, s.iters))
  }

  /** The colour map at a painted pixel is colorize of that pixel's escape-time result. */
  lemma SceneColorsAt(s: Scene, exp: real -> real, hypot: (real, real) -> real, x: int, y: int, mind: real, n: int)
    requires s.w != 0 && s.h != 0 && s.iters != 0
    requires mind == MinTrap(Complex(PixelRe(x, s.w), PixelIm(y, s.h)), s.trap, hypot, Iterations(Complex(PixelRe(x, s.w), PixelIm(y, s.h)), s.iters))
    requires n == EscapeCount(Complex(PixelRe(x, s.w), PixelIm(y, s.h)), s.iters)
    ensures SceneColors(s, exp, hypot)(x, y) == PixelColor(s, exp, hypot, x, y) == Colorize(mind, n, s.iters, exp)
  {
  }

  /** render_orbit_trap.  draws holds the three rng.random() values for the
      trap; exp and hypot stand for math.exp and math.hypot.  A zero iters
      with pixels to paint makes n / iters raise ZeroDivisionError. */
  method RenderOrbitTrap(w: int, h: int, iters: int, draws: (real, real, real),
                         exp: real -> real, hypot: (real, real) -> real)
    returns (img: Image)
    requires iters != 0 || w <= 0 || h <= 0
    ensures img.w == w && img.h == h && img.Valid()
    ensures forall x, y :: img.InBounds(x, y) ==>
      var col := PixelColor(Scene(w, h, iters, TrapOf(draws.0, draws.1, draws.2)), exp, hypot, x, y);
      img.r[img.Idx(x, y)] == Min(1.0, col.0) &&
      img.g[img.Idx(x, y)] == Min(1.0, col.1) &&
      img.b[img.Idx(x, y)] == Min(1.0, col.2)
    ensures iters != 0 && ExpBounded(exp) ==> img.AllInUnit()
  {
    img := new Image.New(w, h, (0.0, 0.0, 0.0));
    var trap := TrapOf(draws.0, draws.1, draws.2);
    ghost var s := Scene(w, h, iters, trap);
    ghost var paint := SceneColors(s, exp, hypot);
    var y := 0;
    while y < h
      invariant 0 <= y && (h > 0 ==> y <= h)
      invariant img.w == w && img.h == h && img.Valid()
      invariant w > 0 ==> PaintedUpTo(img, paint, y * w)
      invariant iters != 0 && ExpBounded(exp) ==> img.AllInUnit()
    {
      var im := PixelIm(y, h);
      var x := 0;
      while x < w
        invariant 0 <= x && (w > 0 ==> x <= w)
        invariant img.w == w && img.h == h && img.Valid()
        invariant w > 0 ==> PaintedUpTo(img, paint, y * w + x)
        invariant iters != 0 && ExpBounded(exp) ==> img.AllInUnit()
      {
        var re := PixelRe(x, w);
        var mind, n := EscapeTime(Complex(re, im), iters, trap, hypot);
        var col := Colorize(mind, n, iters, exp);
        SceneColorsAt(s, exp, hypot, x, y, mind, n);
        if iters != 0 && ExpBounded(exp) {
          PixelColorInUnit(s, exp, hypot, x, y);
        }
        PaintPixel(img, paint, x, y, col);
        x := x + 1;
      }
      assert y * w + w == (y + 1) * w;
      y := y + 1;
    }
    forall px, py | img.InBounds(px, py)
      ensures var col := PixelColor(s, exp, hypot, px, py);
        img.r[img.Idx(px, py)] == Min(1.0, col.0) &&
        img.g[img.Idx(px, py)] == Min(1.0, col.1) &&
        img.b[img.Idx(px, py)] == Min(1.0, col.2)
    {
      img.IdxInverse(px, py);
      assert img.Idx(px, py) < h * w;
      SceneColorsAt(s, exp, hypot, px, py, EscapeTimeMind(s, hypot, px, py), EscapeCount(Complex(PixelRe(px, w), PixelIm(py, h)), iters));
    }
  }

  /** img.add(x, y, col, k=1.0) on the next pixel in row-major order. */
  method PaintPixel(img: Image, ghost paint: (int, int) -> Color, x: int, y: int, col: Color)
    requires img.Valid() && img.InBounds(x, y)
    requires col == paint(x, y)
    requires PaintedUpTo(img, paint, y * img.w + x)
    modifies img
    ensures img.Valid() && PaintedUpTo(img, paint, y * img.w + x + 1)
    ensures old(img.AllInUnit()) && col.0 >= 0.0 && col.1 >= 0.0 && col.2 >= 0.0 ==> img.AllInUnit()
  {
    img.IdxInverse(x, y);
    img.Add(x, y, col, 1.0);
  }
}
