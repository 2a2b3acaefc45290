/**
  The floating-point accumulation buffer of astonish.py (class Image):
  three parallel channel lists indexed row-major, a clamped additive
  deposit, the tone map to bytes and the serialisation to a P6 stream.
*/
module ImageBuffer {
  import opened Ppm
  import opened Arith

  /** An (r, g, b) tuple of linear channel values. */
  type Color = (real, real, real)

  function Min(a: real, b: real): real { if a <= b then a else b }

  function Max(a: real, b: real): real { if a <= b then b else a }

  /** Length of each channel list: Python's [v] * (w * h) is empty when w * h <= 0. */
  function Cells(w: int, h: int): (n: nat)
    ensures w * h >= 0 ==> n == w * h
    ensures w * h < 0 ==> n == 0
  {
    if w * h > 0 then w * h else 0
  }

  function Filled(n: nat, v: real): (s: seq<real>)
    ensures |s| == n
  {
    seq(n, _ => v)
  }

  predicate AtMostOne(s: seq<real>) { forall i :: 0 <= i < |s| ==> s[i] <= 1.0 }

  predicate InUnit(s: seq<real>) { forall i :: 0 <= i < |s| ==> 0.0 <= s[i] <= 1.0 }

  /** One channel of a deposit: s[i] = min(1.0, s[i] + amount). */
  function Deposit(s: seq<real>, i: int, amount: real): (t: seq<real>)
    requires 0 <= i < |s|
    ensures |t| == |s|
    ensures forall j :: 0 <= j < |s| && j != i ==> t[j] == s[j]
    ensures t[i] <= 1.0 && t[i] <= s[i] + amount
    ensures t[i] == 1.0 || t[i] == s[i] + amount
  {
    s[i := Min(1.0, s[i] + amount)]
  }

  /** One channel of Image.add at pixel (x, y) of a w by h buffer: the capped deposit at
      the row-major index y * w + x when the pixel lies inside, no change otherwise. */
  function DepositAt(s: seq<real>, w: int, h: int, x: int, y: int, amount: real): (t: seq<real>)
    requires |s| == Cells(w, h)
    ensures |t| == |s|
  {
    if 0 <= x < w && 0 <= y < h then
      RowStartIsProduct(w, y);
      RowMajorBound(w, h, x, y);
      Deposit(s, RowStart(w, y) + x, amount)
    else s
  }

  /** y * w, the index of the first pixel of row y, counted up one row at a time
      (so that reasoning about neighbouring rows stays linear). */
  function RowStart(w: int, y: nat): int {
    if y == 0 then 0 else RowStart(w, y - 1) + w
  }

  lemma {:induction false} RowStartIsProduct(w: int, y: nat)
    ensures RowStart(w, y) == y * w
  {
    if y > 0 {
      RowStartIsProduct(w, y - 1);
    }
  }

  /** Outside the image DepositAt changes nothing; inside it caps the one entry at
      y * w + x and leaves every other entry alone. */
  lemma DepositAtSpec(s: seq<real>, w: int, h: int, x: int, y: int, amount: real)
    requires |s| == Cells(w, h)
    ensures !(0 <= x < w && 0 <= y < h) ==> DepositAt(s, w, h, x, y, amount) == s
    ensures 0 <= x < w && 0 <= y < h ==>
      0 <= y * w + x < |s| &&
      DepositAt(s, w, h, x, y, amount)[y * w + x] == Min(1.0, s[y * w + x] + amount) &&
      forall j :: 0 <= j < |s| && j != y * w + x ==> DepositAt(s, w, h, x, y, amount)[j] == s[j]
  {
    if 0 <= x < w && 0 <= y < h {
      RowStartIsProduct(w, y);
      RowMajorBound(w, h, x, y);
    }
  }

  /** t is s with no entry decreased. */
  predicate NoDarker(s: seq<real>, t: seq<real>) {
    |s| == |t| && forall i :: 0 <= i < |s| ==> s[i] <= t[i]
  }

  /** A non-negative deposit at any pixel keeps a channel inside [0, 1] and darkens no entry. */
  lemma DepositAtKeepsInUnit(s: seq<real>, w: int, h: int, x: int, y: int, amount: real)
    requires |s| == Cells(w, h) && InUnit(s) && amount >= 0.0
    ensures InUnit(DepositAt(s, w, h, x, y, amount)) && NoDarker(s, DepositAt(s, w, h, x, y, amount))
  {
    if 0 <= x < w && 0 <= y < h {
      RowStartIsProduct(w, y);
      RowMajorBound(w, h, x, y);
      DepositKeepsInUnit(s, y * w + x, amount);
    }
  }

  /** The cap at 1.0 keeps a buffer that is at most 1.0 everywhere at most 1.0. */
  lemma DepositKeepsAtMostOne(s: seq<real>, i: int, amount: real)
    requires 0 <= i < |s| && AtMostOne(s)
    ensures AtMostOne(Deposit(s, i, amount))
  {
  }

  /** A non-negative deposit keeps every entry inside [0, 1]. */
  lemma DepositKeepsInUnit(s: seq<real>, i: int, amount: real)
    requires 0 <= i < |s| && InUnit(s) && amount >= 0.0
    ensures InUnit(Deposit(s, i, amount))
    ensures s[i] <= Deposit(s, i, amount)[i]
  {
  }

  // ---------------------------------------------------------------------
  // Tone mapping (Image.tone_map and its inner mapc)
  // ---------------------------------------------------------------------

  /** The default gamma of tone_map, used by write_ppm. */
  const Gamma: real := 1.8

  /** Python's round() of a float to an int: nearest integer, ties to the even one. */
  function Round(x: real): (n: int)
    ensures -0.5 <= n as real - x <= 0.5
    ensures (n as real - x == 0.5 || x - n as real == 0.5) ==> n % 2 == 0
  {
    var f := x.Floor;
    var d := x - f as real;
    if d < 0.5 then f else if d > 0.5 then f + 1 else if f % 2 == 0 then f else f + 1
  }

  lemma RoundMonotone(x: real, y: real)
    requires x <= y
    ensures Round(x) <= Round(y)
  {
  }

  /** pow(t, e) stands for t ** e, which on [0, 1] stays in [0, 1] for e > 0. */
  ghost predicate PowInUnit(pow: (real, real) -> real, e: real) {
    forall t :: 0.0 <= t <= 1.0 ==> 0.0 <= pow(t, e) <= 1.0
  }

  ghost predicate PowMonotone(pow: (real, real) -> real, e: real) {
    forall s, t :: 0.0 <= s <= t <= 1.0 ==> pow(s, e) <= pow(t, e)
  }

  /** mapc: c / (1 + c), clamped to [0, 1], raised to 1 / gamma, scaled to 255 and rounded. */
  function MapChannel(c: real, gamma: real, pow: (real, real) -> real): (v: byte)
    requires c != -1.0 && gamma != 0.0
    requires PowInUnit(pow, 1.0 / gamma)
  {
    var rolled := c / (1.0 + c);
    var clamped := Max(0.0, Min(1.0, rolled));
    Round(pow(clamped, 1.0 / gamma) * 255.0) as byte
  }

  /** The filmic roll-off c / (1 + c) is increasing on (-1, oo). */
  lemma RollOffMonotone(c1: real, c2: real)
    requires -1.0 < c1 <= c2
    ensures c1 / (1.0 + c1) <= c2 / (1.0 + c2)
  {
    var a, b := 1.0 + c1, 1.0 + c2;
    assert c1 / a == 1.0 - 1.0 / a;
    assert c2 / b == 1.0 - 1.0 / b;
    assert 1.0 / b <= 1.0 / a by {
      assert a * (1.0 / a) == 1.0;
      assert b * (1.0 / b) == 1.0;
    }
  }

  /** A brighter linear value never gives a darker byte. */
  lemma MapChannelMonotone(c1: real, c2: real, gamma: real, pow: (real, real) -> real)
    requires -1.0 < c1 <= c2 && gamma != 0.0
    requires PowInUnit(pow, 1.0 / gamma) && PowMonotone(pow, 1.0 / gamma)
    ensures MapChannel(c1, gamma, pow) <= MapChannel(c2, gamma, pow)
  {
    RollOffMonotone(c1, c2);
    var e := 1.0 / gamma;
    var k1 := Max(0.0, Min(1.0, c1 / (1.0 + c1)));
    var k2 := Max(0.0, Min(1.0, c2 / (1.0 + c2)));
    assert pow(k1, e) <= pow(k2, e);
    RoundMonotone(pow(k1, e) * 255.0, pow(k2, e) * 255.0);
  }

  /** A non-negative value rolls off into [0, 1) and is never pushed past the clamp. */
  lemma RollOffOfNonNegative(c: real)
    requires c >= 0.0
    ensures 0.0 <= c / (1.0 + c) < 1.0
  {
  }

  /** Black stays black when 0 ** e == 0. */
  lemma MapChannelOfZero(gamma: real, pow: (real, real) -> real)
    requires gamma != 0.0 && PowInUnit(pow, 1.0 / gamma) && pow(0.0, 1.0 / gamma) == 0.0
    ensures MapChannel(0.0, gamma, pow) == 0
  {
  }

  predicate NoPole(s: seq<real>) { forall i :: 0 <= i < |s| ==> s[i] != -1.0 }

  /** bytes(map(mapc, s)) */
  function ToneMapChannel(s: seq<real>, gamma: real, pow: (real, real) -> real): (t: seq<byte>)
    requires NoPole(s) && gamma != 0.0 && PowInUnit(pow, 1.0 / gamma)
    ensures |t| == |s|
  {
    seq(|s|, i requires 0 <= i < |s| => MapChannel(s[i], gamma, pow))
  }

  // ---------------------------------------------------------------------
  // The buffer
  // ---------------------------------------------------------------------

  class Image {
    const w: int
    const h: int
    var r: seq<real>
    var g: seq<real>
    var b: seq<real>

    /** Every channel list has w * h entries. */
    ghost predicate Valid()
      reads this
    {
      |r| == Cells(w, h) && |g| == Cells(w, h) && |b| == Cells(w, h)
    }

    ghost predicate AllAtMostOne()
      reads this
    {
      AtMostOne(r) && AtMostOne(g) && AtMostOne(b)
    }

    ghost predicate AllInUnit()
      reads this
    {
      InUnit(r) && InUnit(g) && InUnit(b)
    }

    /** Image.new: every entry of each channel is the matching background component. */
    constructor New(w: int, h: int, bg: Color)
      ensures this.w == w && this.h == h && Valid()
      ensures forall i :: 0 <= i < Cells(w, h) ==> r[i] == bg.0 && g[i] == bg.1 && b[i] == bg.2
    {
      this.w, this.h := w, h;
      var n := Cells(w, h);
      r := Filled(n, bg.0);
      g := Filled(n, bg.1);
      b := Filled(n, bg.2);
    }

    predicate InBounds(x: int, y: int) { 0 <= x < w && 0 <= y < h }

    /** Image.idx: row-major position of pixel (x, y). */
    function Idx(x: int, y: int): (i: int)
      ensures InBounds(x, y) ==> 0 <= i < Cells(w, h)
    {
      if InBounds(x, y) then RowMajorBound(w, h, x, y); y * w + x
      else y * w + x
    }

    /** Pixel (x, y) is recovered from its index by division and remainder by w. */
    lemma IdxInverse(x: int, y: int)
      requires InBounds(x, y)
      ensures Idx(x, y) / w == y && Idx(x, y) % w == x
    {
      DivModUnique(y * w + x, w, y, x);
    }

    /** Distinct in-bounds pixels have distinct indices. */
    lemma IdxInjective(x1: int, y1: int, x2: int, y2: int)
      requires InBounds(x1, y1) && InBounds(x2, y2)
      requires Idx(x1, y1) == Idx(x2, y2)
      ensures x1 == x2 && y1 == y2
    {
      IdxInverse(x1, y1);
      IdxInverse(x2, y2);
    }

    /** Image.add: an in-bounds pixel gets min(1.0, old + color[c] * k) in each channel; nothing else changes. */
    method Add(x: int, y: int, color: Color, k: real)
      requires Valid()
      modifies this
      ensures Valid()
      ensures InBounds(x, y) ==>
        r == Deposit(old(r), Idx(x, y), color.0 * k) &&
        g == Deposit(old(g), Idx(x, y), color.1 * k) &&
        b == Deposit(old(b), Idx(x, y), color.2 * k)
      ensures !InBounds(x, y) ==> r == old(r) && g == old(g) && b == old(b)
      ensures old(AllAtMostOne()) ==> AllAtMostOne()
      ensures old(AllInUnit()) && color.0 * k >= 0.0 && color.1 * k >= 0.0 && color.2 * k >= 0.0 ==>
        AllInUnit() && NoDarker(old(r), r) && NoDarker(old(g), g) && NoDarker(old(b), b)
    {
      if 0 <= x < w && 0 <= y < h {
        var i := Idx(x, y);
        r := r[i := Min(1.0, r[i] + color.0 * k)];
        g := g[i := Min(1.0, g[i] + color.1 * k)];
        b := b[i := Min(1.0, b[i] + color.2 * k)];
      }
    }

    ghost predicate NoPoles()
      reads this
    {
      NoPole(r) && NoPole(g) && NoPole(b)
    }

    /** Image.tone_map: one byte plane per channel. */
    function ToneMap(gamma: real, pow: (real, real) -> real): (planes: (seq<byte>, seq<byte>, seq<byte>))
      reads this
      requires NoPoles() && gamma != 0.0 && PowInUnit(pow, 1.0 / gamma)
      ensures |planes.0| == |r| && |planes.1| == |g| && |planes.2| == |b|
      ensures forall i :: 0 <= i < |r| ==> planes.0[i] == MapChannel(r[i], gamma, pow)
      ensures forall i :: 0 <= i < |g| ==> planes.1[i] == MapChannel(g[i], gamma, pow)
      ensures forall i :: 0 <= i < |b| ==> planes.2[i] == MapChannel(b[i], gamma, pow)
    {
      (ToneMapChannel(r, gamma, pow), ToneMapChannel(g, gamma, pow), ToneMapChannel(b, gamma, pow))
    }

    /** Image.write_ppm without the file: header bytes then the interleaved tone-mapped planes. */
    method WritePpm(pow: (real, real) -> real) returns (data: seq<byte>)
      requires Valid() && w * h >= 0 && NoPoles() && PowInUnit(pow, 1.0 / Gamma)
      ensures data == Encode(w, h, ToneMap(Gamma, pow).0, ToneMap(Gamma, pow).1, ToneMap(Gamma, pow).2)
      ensures |data| == |Header(w, h)| + 3 * (w * h)
      ensures Decode(data) == Some(Raster(w, h, ToneMap(Gamma, pow).0, ToneMap(Gamma, pow).1, ToneMap(Gamma, pow).2))
    {
      var planes := ToneMap(Gamma, pow);
      var R, G, B := planes.0, planes.1, planes.2;
      HeaderIsAscii(w, h);
      var header := Ascii(Header(w, h));
      var out := Interleave(R, G, B);
      data := header + out;
      DecodeEncode(w, h, R, G, B);
    }
  }
}
