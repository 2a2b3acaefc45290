# astonish: a Dafny model of the image generator core

The generator `astonish.py` renders procedural images into a floating-point
accumulation buffer and serialises it as a binary PPM. It has two render
engines:

* a **flow field**: particles placed in a loose ring. Each step, a
  three-octave value-noise angle field accelerates them, damping slows
  them, and they bounce softly at the edges. Their colour trails go into
  the buffer.
* an **orbit trap**: a Mandelbrot escape-time loop per pixel. It tracks
  how close the orbit comes to a small circular trap, and the escape
  iteration and the trap distance pick the pixel's colour.

The small JavaScript helper module `src/physics.js` (`distance`,
`collides`, `clamp`) is modelled too.

Each Python float is a Dafny `real`. The transcendental functions
(`math.cos`, `math.sin`, `math.exp`, `math.hypot`, `x ** (1 / gamma)`,
`Math.sqrt`) are function-typed parameters. Where a property needs a fact
about one of them, it is a `requires` (`PowInUnit`, `ExpBounded`,
`IsSqrt`). The values of the seeded generators are inputs: the noise grid
is a `Noise` value, each particle is a pair of draws, and the trap is a
triple of draws.

| file | module | models |
|---|---|---|
| `arith.dfy` | `Arith` | helpers: row-major bounds, division facts, products of reals |
| `ppm.dfy` | `Ppm` | bytes, the decimal text of `str(int)`, the `P6 w h 255\n` header, stride-3 interleaving (loops over an array), and a decoder that inverts the whole stream |
| `image.dfy` | `ImageBuffer` | `class Image`: `new`, `idx`, `add` (in place), `tone_map` and `mapc` (exact banker's rounding), `write_ppm` without the file |
| `noise.dfy` | `ValueNoise` | `ValueNoise2D._g`, `_smoothstep`, `sample` |
| `flow.dfy` | `FlowField` | `flow_angle` (loop), `palette`, `class Particle` and its step, `int()` truncation, `render_flow_field` |
| `orbit.dfy` | `OrbitTrap` | the escape-time loop (`EscapeTime`), its reference definitions (`Orbit`, `EscapeCount`, `MinTrap`), `colorize`, the view window, `render_orbit_trap` |
| `physics.dfy` | `Physics` | `distance`, `collides`, `clamp`, and the unit-test cases |

The model follows the code as written; in particular:

* `Image.new` does not reject a non-positive width or height. `[v] * n` is
  simply empty for `n <= 0`, so the channel length is `Cells(w, h) = max(0, w * h)`.
* When an orbit never escapes, the loop `for n in range(iters)` leaves `n = iters - 1`,
  not `iters` (`NeverEscapes`, `MinusOneNeverEscapes`). So `n / iters` never
  reaches 1.
* With `iters == 0` and at least one pixel, `n / iters` in `colorize`
  raises `ZeroDivisionError`. `RenderOrbitTrap` requires `iters != 0 || w <= 0 || h <= 0`.
* `mapc` divides by `1 + c`, so a channel value of exactly `-1.0` raises
  `ZeroDivisionError`. `MapChannel` requires `c != -1.0`.
* `bytearray(w * h * 3)` raises `ValueError` for a negative size.
  `WritePpm` requires `w * h >= 0`.

## Model

| member | source | states |
|---|---|---|
| Ppm.IntToString | astonish.py:59 | the decimal text of an int is non-empty, has no space, and is digits with a leading `-` exactly for negative numbers |
| Ppm.NatToString | astonish.py:59 | the decimal text of a natural number is non-empty digits with no leading zero |
| Ppm.DigitsOfNatToString | astonish.py:59 | reading the digits of the decimal text back gives the number |
| Ppm.ParseIntToString | astonish.py:59 | parsing the decimal text of any int gives that int back |
| Ppm.Header | astonish.py:59 | definition: the text `P6 {w} {h} 255\n`, with each number written by `IntToString`; its properties are the rows that follow |
| Ppm.HeaderIsAscii | astonish.py:59 | the header `P6 {w} {h} 255\n` is pure ASCII, so `.encode("ascii")` does not fail |
| Ppm.TokenOfIntToString | astonish.py:59 | a header field followed by a space reads back as its number and its width |
| Ppm.Token | astonish.py:59 | definition of the reader for one header field: the decimal number before the first space, and the position just after that space; `None` without a space or digits |
| Ppm.ParseHeader | astonish.py:59 | definition of the header reader: "P6 ", two tokens, then "255\n"; it returns w, h and the header length, or `None` |
| Ppm.ParseHeaderOfFields | astonish.py:59 | "P6 ", a first field, a second field and "255\n", found one after the other, parse as a header of that length |
| Ppm.ParseHeaderOfText | astonish.py:59 | a header whose two fields read back as tokens parses to those fields and its own length |
| Ppm.ParseHeaderOfHeader | astonish.py:59 | the header parses back to (w, h) and its own length, whatever follows it |
| Ppm.Ascii | astonish.py:59 | ASCII encoding gives one byte per character |
| Ppm.TextOfAscii | astonish.py:59 | decoding the header bytes, with a payload after them, gives back the header text; the payload starts right after the header |
| Ppm.Interleaved | astonish.py:61-64 | the interleaved stream has 3n bytes; byte 3i is R[i], byte 3i+1 is G[i], byte 3i+2 is B[i] |
| Ppm.Plane | astonish.py:61-64 | the c-th plane of a stream is every third byte, starting at offset c |
| Ppm.Interleave | astonish.py:61-64 | the three stride-3 slice assignments into a zeroed `3n` buffer produce exactly the interleaved stream |
| Ppm.PlanesOfInterleaved | astonish.py:61-64 | de-interleaving the stream recovers R, G and B exactly |
| Ppm.InterleavedOfPlanes | astonish.py:61-64 | every stream of 3n bytes is the interleaving of its three planes |
| Ppm.SamePixels | astonish.py:61-64 | two 3n-byte streams that agree at every pixel position are equal |
| Ppm.Encode | astonish.py:57-67 | the file is the header followed by exactly three bytes per entry of R (3 * w * h when called from `WritePpm`), and those bytes are the interleaved planes |
| Ppm.Decode | astonish.py:57-67 | definition of the reader of the written format: parse the header, then take the three planes of the 3 * w * h bytes after it; `None` for a bad header or a short payload |
| Ppm.DecodeEncode | astonish.py:57-67 | decoding the written file gives back w, h and the three byte planes |
| ImageBuffer.Cells | astonish.py:33-34 | each channel list has w * h entries, or none when w * h is not positive |
| ImageBuffer.Image.New | astonish.py:32-34 | `Image.new` keeps w and h, and every entry of each channel equals the matching background component |
| ImageBuffer.Image.Idx | astonish.py:36-37 | an in-bounds pixel has an index in [0, w * h) |
| ImageBuffer.Image.IdxInverse | astonish.py:36-37 | division and remainder by w recover (x, y) from the index |
| ImageBuffer.Image.IdxInjective | astonish.py:36-37 | distinct in-bounds pixels have distinct indices |
| ImageBuffer.Deposit | astonish.py:42-44 | a deposit changes only index i, where the value becomes min(1, old + amount) |
| ImageBuffer.DepositAt | astonish.py:39-44 | one channel of `add` at pixel (x, y): the buffer length is kept (the rest is stated by `DepositAtSpec`) |
| ImageBuffer.DepositAtSpec | astonish.py:39-44 | outside the image a deposit changes nothing; inside it, entry y * w + x becomes min(1, old + amount) and every other entry is kept |
| ImageBuffer.DepositAtKeepsInUnit | astonish.py:39-44 | a non-negative deposit at any pixel keeps a channel in [0, 1] and darkens no entry |
| ImageBuffer.DepositKeepsAtMostOne | astonish.py:42-44 | after a deposit, a channel that was at most 1 everywhere is still at most 1 |
| ImageBuffer.DepositKeepsInUnit | astonish.py:42-44 | a non-negative deposit keeps every entry in [0, 1] and never lowers the entry it touches |
| ImageBuffer.Image.Add | astonish.py:39-44 | out of bounds, nothing changes; in bounds, each channel is the deposit of color[c] * k at idx(x, y); the entries stay at most 1; with non-negative amounts they stay in [0, 1] and none gets darker |
| ImageBuffer.Round | astonish.py:51 | `round` is within 1/2 of its argument and breaks ties towards the even integer |
| ImageBuffer.RoundMonotone | astonish.py:51 | `round` is monotone |
| ImageBuffer.RollOffMonotone | astonish.py:49 | the roll-off c / (1 + c) is increasing on (-1, oo) |
| ImageBuffer.RollOffOfNonNegative | astonish.py:49-50 | a non-negative value rolls off into [0, 1), so the clamp leaves it unchanged |
| ImageBuffer.MapChannel | astonish.py:48-51 | definition of `mapc`: roll-off c / (1 + c), clamp to [0, 1], raise to 1 / gamma, scale by 255 and round half to even; it requires c != -1 and gamma != 0, where Python would divide by zero, and a pow that maps [0, 1] into [0, 1]; its properties are the rows that follow |
| ImageBuffer.MapChannelMonotone | astonish.py:48-51 | for a monotone power, a brighter linear value never maps to a darker byte |
| ImageBuffer.MapChannelOfZero | astonish.py:48-51 | black maps to byte 0 when 0 ** e == 0 |
| ImageBuffer.ToneMapChannel | astonish.py:52-54 | one byte per entry |
| ImageBuffer.Image.ToneMap | astonish.py:46-55 | three planes, one per channel; entry i of each is mapc of entry i of that channel |
| ImageBuffer.Image.WritePpm | astonish.py:57-67 | the bytes written are the encoding of the tone-mapped planes, with length header + 3 * w * h, and they decode back to w, h and those planes |
| ValueNoise.GridIndex | astonish.py:95-98 | for any integer lattice coordinates, the wrapped grid index lies in [0, period ** 2) |
| ValueNoise.GridIndexPeriodic | astonish.py:95-98 | shifting either coordinate by the period reads the same cell |
| ValueNoise.Lookup | astonish.py:93-98 | with every grid value in [0, 1), a lookup is in [0, 1) |
| ValueNoise.Smoothstep | astonish.py:101-102 | definition: t * t * (3 - 2 * t); its properties are `SmoothstepRange` and `SmoothstepSymmetric` |
| ValueNoise.SmoothstepRange | astonish.py:101-102 | smoothstep fixes 0 and 1 and maps [0, 1] into [0, 1] |
| ValueNoise.SmoothstepSymmetric | astonish.py:101-102 | s(1 - t) = 1 - s(t) |
| ValueNoise.Lerp | astonish.py:119-121 | a blend step gives its first end at weight 0 and its second end at weight 1 |
| ValueNoise.Blend | astonish.py:119-121 | the bilinear blend gives each of the four corners at the matching corner of the unit square of fractions |
| ValueNoise.LerpBetween | astonish.py:119-121 | a linear blend with its weight in [0, 1] stays between any bounds of its two ends |
| ValueNoise.BlendConvex | astonish.py:119-121 | the bilinear blend with eased fractions is a convex combination of the four corners |
| ValueNoise.Max4 | astonish.py:114-121 | the largest of the four corners bounds every corner and is one of them |
| ValueNoise.SampleLattice | astonish.py:106-121 | definition of `sample` after the scaling by freq: floor, eased fractions, four wrapped corners and the bilinear blend; its properties are `SampleLatticeInUnit` and `SampleLatticeTiles` |
| ValueNoise.Sample | astonish.py:104-121 | definition of `sample`: the point scaled by freq, then `SampleLattice`; its properties are `SampleInUnit`, `SampleAtLattice` and `SampleTiles` |
| ValueNoise.SampleLatticeInUnit | astonish.py:107-121 | with every grid value in [0, 1), the blend at any lattice-space point is in [0, 1) |
| ValueNoise.SampleInUnit | astonish.py:104-121 | with every grid value in [0, 1), every sample is in [0, 1), at any point and frequency |
| ValueNoise.SampleAtLattice | astonish.py:104-121 | at frequency 1, a sample at a lattice point is the grid value there |
| ValueNoise.SampleLatticeTiles | astonish.py:95-121 | shifting a lattice-space point by the period in either axis reads the same corners with the same fractions, so the blend is the same |
| ValueNoise.SampleTiles | astonish.py:95-121 | the field tiles: moving by period / freq in either axis gives exactly the same sample |
| FlowField.Amp | astonish.py:136-144 | the amplitude of every octave lies in (0, 1] |
| FlowField.Pow2 | astonish.py:140-144 | the frequency multiplier 2 ** i of octave i times its amplitude is 1: doubling the frequency exactly halves the weight |
| FlowField.Octaves | astonish.py:139-144 | definition of (val, norm) after k octaves, the reference for the loop in `FlowAngle`; its properties are `OctavesStep`, `NormClosedForm` and `OctavesBounded` |
| FlowField.AngleOf | astonish.py:145-146 | definition: val / max(1e-6, norm), mapped onto [-pi, pi); its range is `AngleInRange` |
| FlowField.OctavesStep | astonish.py:139-144 | one more octave adds amp * v to val and amp to norm, and the next amplitude is half of amp |
| FlowField.NormClosedForm | astonish.py:139-144 | after k octaves, norm is 2 - 2 * 0.5 ** k |
| FlowField.AccumulateOctave | astonish.py:142-143 | adding a sample in [0, 1) with a positive weight keeps the weighted sum in [0, total weight) |
| FlowField.OctavesBounded | astonish.py:139-144 | with every sample in [0, 1), val lies in [0, norm], and strictly below norm once an octave has run |
| FlowField.AngleInRange | astonish.py:145-146 | the normalised angle lies in [-pi, pi) |
| FlowField.SampleAt | astonish.py:141 | with every grid value in [0, 1), the noise at a fixed point is in [0, 1) at every frequency |
| FlowField.SamplesOfUnitGrid | astonish.py:141 | with every grid value in [0, 1), every sample at a point is in [0, 1) |
| FlowField.FlowAngle | astonish.py:134-146 | with noise.sample(x, y, f) passed as at(f), the octave loop returns the normalised angle of the accumulated (val, norm); when every sample is in [0, 1), the angle is in [-pi, pi); scale only has to be non-zero when at least one octave runs |
| FlowField.Mix | astonish.py:175-182 | the blend of two colours is the first at u = 0 and the second at u = 1 |
| FlowField.Palette | astonish.py:167-182 | definition of `palette`: `Mix` of midnight blue and cyan at 2t below 0.5, of cyan and amber at 2(t - 0.5) from 0.5 on; its properties are `PaletteStops` and `PaletteInUnit` |
| FlowField.PaletteStops | astonish.py:167-182 | the gradient starts at midnight blue, reaches cyan at 0.5 from both sides and ends at amber; on each half, every component lies between that half's two stops |
| FlowField.PaletteInUnit | astonish.py:167-182 | every palette colour for t in [0, 1] has components in [0, 1] |
| FlowField.Progress | astonish.py:187 | t = s / max(1, steps - 1) lies in [0, 1] for every step s |
| FlowField.Advance | astonish.py:193-201 | definition of one particle update: damped velocity, move, and the bounce test against the margins; its properties are the two rows that follow and `Particle.Step` |
| FlowField.AdvanceKeepsSpeedBound | astonish.py:193-201 | with each acceleration component bounded by A, a velocity within 49A stays within 49A |
| FlowField.AdvanceBounce | astonish.py:193-201 | on each axis (x against w, y against h) the move uses the damped velocity; past a margin of that axis, its velocity reverses and keeps 60% of its size; inside the margins it is kept |
| FlowField.Particle.constructor | astonish.py:164 | a new particle sits at (x, y) at rest |
| FlowField.Particle.Step | astonish.py:193-201 | the in-place update of a particle is one `Advance` of its old state |
| FlowField.Trunc | astonish.py:203 | `int()` truncates towards zero, on both sides of 0 |
| FlowField.TruncOfSmallNegative | astonish.py:203 | positions in (-1, 0) deposit at column or row 0, where floor would give -1 |
| FlowField.RingRadius | astonish.py:161 | each particle's ring radius lies in [0.65 rad, rad] |
| FlowField.RingFactorScales | astonish.py:161 | rad * (0.65 + 0.35 u) lies in [0.65 rad, rad] for u in [0, 1) |
| FlowField.Brighten | astonish.py:204-206 | one `img.add(x, y, col, k)`: each channel becomes `DepositAt` of the old channel with amount col[c] * k at (x, y) |
| FlowField.Trail | astonish.py:204-206 | one channel of the three deposits, in order: core at (ix, iy), side at (ix + 1, iy), side at (ix, iy + 1); the length is kept |
| FlowField.TrailOfSteps | astonish.py:204-206 | three successive deposits make up `Trail`; with non-negative amounts they keep a channel in [0, 1] and darken no entry |
| FlowField.TrailAtCells | astonish.py:204-206 | away from the right and bottom edges, the trail raises exactly the particle's cell by core and the cells to its right and below it by side, each capped at 1, and keeps every other entry |
| FlowField.DepositTrail | astonish.py:203-206 | with (ix, iy) = (int(x), int(y)), each channel becomes `Trail` of the old channel with amounts col[c] * 0.015 and col[c] * 0.007; the buffer stays in [0, 1] and no entry gets darker |
| FlowField.RenderFlowField | astonish.py:148-207 | the result is a w x h buffer whose entries all stay in [0, 1] |
| OrbitTrap.Step | astonish.py:245-247 | definition of one pass: z * z + c on (zr, zi), with the new zi computed from the old zr; `OrbitStep` ties it to the loop's assignments |
| OrbitTrap.Orbit | astonish.py:240-247 | definition of the orbit point after k passes from z = 0, the reference for the loop in `EscapeTime`; its properties are `OrbitStep` and the period-two rows |
| OrbitTrap.TrapOf | astonish.py:218-220 | the trap radius lies in [0.15, 0.25) and each coordinate of its centre in [-0.05, 0.05) |
| OrbitTrap.TrapDistance | astonish.py:249-251 | the trap distance is never negative |
| OrbitTrap.EscapeFrom | astonish.py:243-255 | from pass j on, the recorded n lies in [j, iters - 1] |
| OrbitTrap.EscapeCount | astonish.py:242-243 | n stays 0 when the loop does not run |
| OrbitTrap.Iterations | astonish.py:243-255 | no pass runs when iters <= 0 |
| OrbitTrap.EscapeFromSpec | astonish.py:243-255 | from pass j on, the loop stops at the first pass whose new z escapes, or at the last pass |
| OrbitTrap.EscapeCountSpec | astonish.py:242-255 | for iters >= 1: 0 <= n <= iters - 1; no orbit point before pass n escapes; pass n escapes unless it is the last pass; the loop ran n + 1 passes |
| OrbitTrap.FirstEscape | astonish.py:243-255 | the first escaping pass is the recorded n |
| OrbitTrap.NeverEscapes | astonish.py:243-255 | an orbit that never escapes ends with n = iters - 1 |
| OrbitTrap.PeriodTwoOrbit | astonish.py:245-247 | a c with c * c + c = 0 and 0 * 0 + c = c has the orbit 0, c, 0, c, ... |
| OrbitTrap.PeriodTwoPoint | astonish.py:245-247 | every point of such an orbit is 0 or c |
| OrbitTrap.MinusOneSteps | astonish.py:245-247 | z * z - 1 sends -1 to 0 and 0 to -1 |
| OrbitTrap.MinusOneBounded | astonish.py:254 | neither 0 nor -1 passes the escape test |
| OrbitTrap.PeriodTwoNeverEscapes | astonish.py:243-255 | such a period-two orbit never breaks, and the loop runs all iters passes |
| OrbitTrap.MinusOneNeverEscapes | astonish.py:243-255 | for c = -1 the loop runs all iters passes and records n = iters - 1 |
| OrbitTrap.MinTrap | astonish.py:241-253 | definition of mind after k passes: 1e9 lowered to each trap distance along the orbit; its properties are `MinTrapBounds` and `EscapeTime` |
| OrbitTrap.MinTrapBounds | astonish.py:241-253 | mind lies in [0, 1e9], is at most every trap distance along the orbit so far, and is 1e9 or one of those distances |
| OrbitTrap.OrbitStep | astonish.py:245-247 | one pass of the three assignments maps Orbit(c, j) to Orbit(c, j + 1) |
| OrbitTrap.EscapeTime | astonish.py:240-255 | the per-pixel loop returns n = EscapeCount and mind = the minimum trap distance over the passes it ran |
| OrbitTrap.Shade | astonish.py:231-233 | definition of the three channel formulas of `colorize` from u and v; its range is `ShadeRange` |
| OrbitTrap.Colorize | astonish.py:226-234 | definition of `colorize`: u = exp(-4d), v = n / iters, then `Shade`; its contract is the requires iters != 0 that rules out the ZeroDivisionError; its range is `ColorizeRange` |
| OrbitTrap.ShadeRange | astonish.py:231-233 | for u, v in [0, 1]: r and g lie in [0.2, 1] and b in [0.25, 1] |
| OrbitTrap.ColorizeRange | astonish.py:226-234 | for any iters != 0 (a negative iters gives n = 0 and v = 0), an escape-time result and an exp that maps non-positive numbers into [0, 1], all three channels lie between 0.2 (0.25 for b) and 1 |
| OrbitTrap.PixelRe | astonish.py:239 | re = (x / w - 0.5) * 3 - 0.6, defined for w != 0; its range is `ViewWindow` |
| OrbitTrap.PixelIm | astonish.py:237 | im = (y / h - 0.5) * 3, defined for h != 0; its range is `ViewWindow` |
| OrbitTrap.ViewWindow | astonish.py:236-239 | the view spans [-2.1, 0.9) x [-1.5, 1.5), and pixel (0, 0) sits at its corner |
| OrbitTrap.PixelColor | astonish.py:236-256 | definition of the colour added at pixel (x, y): `Colorize` of `MinTrap` and `EscapeCount` at c = (PixelRe(x), PixelIm(y)); its properties are `PixelColorInUnit` and `SceneColorsAt` |
| OrbitTrap.PixelColorInUnit | astonish.py:226-256 | for any iters != 0 and a bounded exp, every pixel colour has channels in [0.2, 1], so the clamp at 1 leaves it unchanged |
| OrbitTrap.SceneColorsAt | astonish.py:236-256 | at every pixel, the colour map is colorize of that pixel's escape-time result |
| OrbitTrap.PaintPixel | astonish.py:256 | painting the next pixel in row-major order extends the painted prefix by one entry; with a non-negative colour it keeps the buffer in [0, 1] |
| OrbitTrap.RenderOrbitTrap | astonish.py:213-257 | every in-bounds pixel holds min(1, its colour) in each channel, so each pixel is painted exactly once; with iters != 0 and a bounded exp, every entry lies in [0, 1] |
| Physics.OrZero | src/physics.js:2 | a missing property reads as 0 and a present one as its value |
| Physics.SumOfSquares | src/physics.js:3 | the radicand is never negative |
| Physics.SquaredDistance | src/physics.js:2-3 | the squared distance is never negative |
| Physics.Distance | src/physics.js:1-4 | definition of `distance`: sqrt of the sum of squared coordinate differences, a missing coordinate read as 0; its properties are `Symmetric`, `DistanceToSelf`, `MissingFieldsReadAsZero` and `DistanceTest` |
| Physics.Collides | src/physics.js:6-8 | definition of `collides`: the distance is below the sum of the radii, a missing radius read as 0; its properties are `CollidesBySquares`, `Symmetric`, `MissingFieldsReadAsZero` and `CollidesTests` |
| Physics.Clamp | src/physics.js:10-12 | for min <= max the result lies in [min, max]; a value already in range comes back unchanged; a value below gives min and one above gives max; for min > max the result is min |
| Physics.ClampIdempotent | src/physics.js:10-12 | clamping twice is clamping once |
| Physics.ClampTests | test/unit/physics.test.js:19-23 | clamp(10, -5, 5) = 5, clamp(-10, -5, 5) = -5, clamp(2, -5, 5) = 2 |
| Physics.RootUnique | src/physics.js:3 | the non-negative square root is unique |
| Physics.SquareMonotone | src/physics.js:7 | for non-negative d and R, d < R exactly when d * d < R * R |
| Physics.CollidesBySquares | src/physics.js:6-8 | with a true square root and a non-negative radius sum, two bodies collide exactly when their squared distance is below the squared radius sum |
| Physics.Symmetric | src/physics.js:1-8 | distance and collides do not depend on the order of the two bodies |
| Physics.DistanceToSelf | src/physics.js:2-3 | distance(a, a) is sqrt(0), which is 0 for a true square root |
| Physics.MissingFieldsReadAsZero | src/physics.js:2 | a missing z counts as 0 in distance, and a missing radius counts as 0 in collides |
| Physics.DistanceTest | test/unit/physics.test.js:3-5 | distance((0, 0, 0), (3, 4, 0)) = 5 |
| Physics.CollidesTests | test/unit/physics.test.js:7-17 | bodies with radii 1 and 1 collide at separation 1.5 and do not collide at separation 3 |

## Left out

- File I/O: `write_ppm` returns the bytes it would write (`WritePpm`). Opening and writing the file is not modelled.
- `write_png` and the Pillow import: they hand the same interleaved bytes to an external library.
- The seeded generators (`random.seed`, `random.random`, `random.Random`, and `seed ^ 0xBEEF`): the noise grid, the particle draws and the trap draws are inputs.
- `math.cos`, `math.sin`, `math.exp`, `math.hypot`, `**` and `Math.sqrt`: each is an uninterpreted parameter. Properties assume only what they state (`PowInUnit`, `PowMonotone`, `ExpBounded`, `IsSqrt`).
- IEEE floating point: rounding of every operation, overflow to infinity, NaN and signed zero. The model computes on exact reals. `Round` is Python's round-half-to-even on the exact value.
- `ascii_preview`, `main` with its argument parsing, directory creation and the venv/pip fallback: these are display and command-line code.
- `src/index.js`, `src/effects.js`, `test/smoke.js` and the website: browser, WebGL, HTTP and page code.
- ImageBuffer.MapChannel: requires `c != -1.0`. The source raises ZeroDivisionError there; buffers built by `add` from a non-negative background never hold -1.
- OrbitTrap.RenderOrbitTrap: requires `iters != 0 || w <= 0 || h <= 0`. With `iters == 0` and at least one pixel, `n / iters` in `colorize` (astonish.py:230) raises ZeroDivisionError; that error path is not modelled.
- ImageBuffer.Image.WritePpm: requires `w * h >= 0`, because `bytearray` of a negative size (astonish.py:61) raises ValueError; that error path is not modelled.
- ImageBuffer.Image.WritePpm: requires `NoPoles()`, no channel entry equal to -1, because `mapc` raises ZeroDivisionError there; that error path is not modelled.
- ValueNoise: a period of 0 or less is not modelled (Python's `%` raises or changes sign there). `Valid` requires a positive period with `period * period` grid values, as `__init__` builds.
- FlowField.RenderFlowField: states the size of the buffer and that it stays in [0, 1]. It does not state per-pixel values, which depend on cos and sin along each trajectory.
- FlowField.FlowAngle: takes the noise at the particle's position as a function of the frequency (`SampleAt(noise, x, y)`) in place of the noise object and the coordinates. `octaves` is a parameter; `render_flow_field` always passes 3.
- Physics: JavaScript's `||` also maps a present NaN or `false` to 0. Only an absent field and a present number are modelled.
- Physics.Clamp: where `Math.max` and `Math.min` meet a NaN operand, the result is not modelled.
