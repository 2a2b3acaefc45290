/**
  The raw binary portable-pixmap ("P6") layout that Image.write_ppm emits:
  an ASCII header "P6 <w> <h> 255\n" followed by the three tone-mapped byte
  planes interleaved pixel by pixel (R, G, B).  A decoder is given as the
  inverse of the encoder, and the round trip is proved.
*/
module Ppm {

  newtype byte = x: int | 0 <= x < 256

  datatype Option<T> = None | Some(value: T)

  /** What a decoder recovers from a P6 stream: dimensions and three planes. */
  datatype Raster = Raster(w: int, h: int, r: seq<byte>, g: seq<byte>, b: seq<byte>)

  // ---------------------------------------------------------------------
  // Decimal text of integers, as Python's str() writes them
  // ---------------------------------------------------------------------

  predicate IsDigit(c: char) { '0' <= c <= '9' }

  predicate AllDigits(s: string) { forall i :: 0 <= i < |s| ==> IsDigit(s[i]) }

  function DigitChar(d: int): (c: char)
    requires 0 <= d < 10
    ensures IsDigit(c) && c as int - '0' as int == d
  {
    (('0' as int) + d) as char
  }

  /** Most significant digit first, no leading zeros. */
  function NatToString(n: nat): (s: string)
    ensures |s| > 0 && AllDigits(s)
    ensures |s| > 1 ==> s[0] != '0'
  {
    if n < 10 then [DigitChar(n)] else NatToString(n / 10) + [DigitChar(n % 10)]
  }

  /** Python's str() of an int: a minus sign before the digits of a negative value. */
  function IntToString(n: int): (s: string)
    ensures |s| > 0 && ' ' !in s
    ensures forall i :: 0 <= i < |s| ==> IsDigit(s[i]) || (i == 0 && s[i] == '-')
    ensures n < 0 <==> s[0] == '-'
  {
    if n < 0 then "-" + NatToString(-n) else NatToString(n)
  }

  function DigitsValue(s: string): nat
    requires AllDigits(s)
  {
    if s == [] then 0 else DigitsValue(s[..|s| - 1]) * 10 + (s[|s| - 1] as int - '0' as int)
  }

  /** Reads back the text str() writes for an int; None for anything else. */
  function ParseInt(s: string): Option<int> {
    if |s| > 1 && s[0] == '-' && AllDigits(s[1..]) then Some(-(DigitsValue(s[1..]) as int))
    else if |s| > 0 && AllDigits(s) then Some(DigitsValue(s))
    else None
  }

  lemma {:induction false} DigitsOfNatToString(n: nat)
    ensures DigitsValue(NatToString(n)) == n
  {
    if n >= 10 {
      var s := NatToString(n);
      assert s[..|s| - 1] == NatToString(n / 10);
      DigitsOfNatToString(n / 10);
    }
  }

  lemma ParseIntToString(n: int)
    ensures ParseInt(IntToString(n)) == Some(n)
  {
    var s := IntToString(n);
    if n < 0 {
      assert s[1..] == NatToString(-n);
      DigitsOfNatToString(-n);
    } else {
      DigitsOfNatToString(n);
    }
  }

  // ---------------------------------------------------------------------
  // Header text and its ASCII encoding
  // ---------------------------------------------------------------------

  /** The header f"P6 {w} {h} 255\n". */
  function Header(w: int, h: int): string {
    "P6 " + IntToString(w) + " " + IntToString(h) + " 255\n"
  }

  predicate IsAscii(s: string) { forall i :: 0 <= i < |s| ==> s[i] as int < 128 }

  lemma HeaderIsAscii(w: int, h: int)
    ensures IsAscii(Header(w, h))
  {
  }

  /** str.encode("ascii") */
  function Ascii(s: string): (bs: seq<byte>)
    requires IsAscii(s)
    ensures |bs| == |s|
  {
    seq(|s|, i requires 0 <= i < |s| => s[i] as int as byte)
  }

  /** Bytes read back as characters with the same code. */
  function Text(bs: seq<byte>): (s: string)
    ensures |s| == |bs|
  {
    seq(|bs|, i requires 0 <= i < |bs| => bs[i] as int as char)
  }

  lemma TextOfAscii(s: string, payload: seq<byte>)
    requires IsAscii(s)
    ensures Text(Ascii(s) + payload) == s + Text(payload)
    ensures (Ascii(s) + payload)[|s|..] == payload
  {
    assert Text(Ascii(s) + payload) == s + Text(payload);
  }

  // ---------------------------------------------------------------------
  // Interleaving the planes
  // ---------------------------------------------------------------------

  /** The stream out[0::3] = R; out[1::3] = G; out[2::3] = B. */
  function Interleaved(R: seq<byte>, G: seq<byte>, B: seq<byte>): (out: seq<byte>)
    requires |R| == |G| == |B|
    ensures |out| == 3 * |R|
    ensures forall i :: 0 <= i < |R| ==> out[3 * i] == R[i] && out[3 * i + 1] == G[i] && out[3 * i + 2] == B[i]
  {
    if R == [] then [] else [R[0], G[0], B[0]] + Interleaved(R[1..], G[1..], B[1..])
  }

  /** Every third byte of s starting at offset: the slice s[offset::3] of a whole number of pixels. */
  function Plane(s: seq<byte>, offset: nat): (p: seq<byte>)
    requires offset < 3
    ensures |p| == |s| / 3
    ensures forall i :: 0 <= i < |p| ==> p[i] == s[3 * i + offset]
  {
    seq(|s| / 3, i requires 0 <= i < |s| / 3 => s[3 * i + offset])
  }

  /** Two streams of whole pixels that agree on every channel of every pixel are equal. */
  lemma {:induction false} SamePixels(a: seq<byte>, b: seq<byte>, n: nat)
    requires |a| == |b| == 3 * n
    requires forall i :: 0 <= i < n ==> a[3 * i] == b[3 * i] && a[3 * i + 1] == b[3 * i + 1] && a[3 * i + 2] == b[3 * i + 2]
    ensures a == b
  {
    if n > 0 {
      forall i | 0 <= i < n - 1
        ensures a[3..][3 * i] == b[3..][3 * i]
        ensures a[3..][3 * i + 1] == b[3..][3 * i + 1]
        ensures a[3..][3 * i + 2] == b[3..][3 * i + 2]
      {
        assert a[3 * (i + 1)] == b[3 * (i + 1)];
      }
      SamePixels(a[3..], b[3..], n - 1);
      assert a[..3] == b[..3] by {
        assert a[3 * 0] == b[3 * 0] && a[3 * 0 + 1] == b[3 * 0 + 1] && a[3 * 0 + 2] == b[3 * 0 + 2];
      }
      assert a == a[..3] + a[3..] && b == b[..3] + b[3..];
    }
  }

  lemma PlanesOfInterleaved(R: seq<byte>, G: seq<byte>, B: seq<byte>)
    requires |R| == |G| == |B|
    ensures Plane(Interleaved(R, G, B), 0) == R
    ensures Plane(Interleaved(R, G, B), 1) == G
    ensures Plane(Interleaved(R, G, B), 2) == B
  {
  }

  lemma InterleavedOfPlanes(s: seq<byte>, n: nat)
    requires |s| == 3 * n
    ensures Interleaved(Plane(s, 0), Plane(s, 1), Plane(s, 2)) == s
  {
    var t := Interleaved(Plane(s, 0), Plane(s, 1), Plane(s, 2));
    forall i | 0 <= i < n
      ensures t[3 * i] == s[3 * i] && t[3 * i + 1] == s[3 * i + 1] && t[3 * i + 2] == s[3 * i + 2]
    {
      assert Plane(s, 0)[i] == s[3 * i] && Plane(s, 1)[i] == s[3 * i + 1] && Plane(s, 2)[i] == s[3 * i + 2];
    }
    SamePixels(t, s, n);
  }

  /** The slice assignments of write_ppm, one stride-3 pass per channel. */
  method Interleave(R: seq<byte>, G: seq<byte>, B: seq<byte>) returns (out: seq<byte>)
    requires |R| == |G| == |B|
    ensures out == Interleaved(R, G, B)
  {
    var n := |R|;
    var buf := new byte[3 * n];
    var i := 0;
    while i < n
      invariant 0 <= i <= n
      invariant forall j :: 0 <= j < i ==> buf[3 * j] == R[j]
    {
      buf[3 * i] := R[i];
      i := i + 1;
    }
    i := 0;
    while i < n
      invariant 0 <= i <= n
      invariant forall j :: 0 <= j < n ==> buf[3 * j] == R[j]
      invariant forall j :: 0 <= j < i ==> buf[3 * j + 1] == G[j]
    {
      buf[3 * i + 1] := G[i];
      i := i + 1;
    }
    i := 0;
    while i < n
      invariant 0 <= i <= n
      invariant forall j :: 0 <= j < n ==> buf[3 * j] == R[j] && buf[3 * j + 1] == G[j]
      invariant forall j :: 0 <= j < i ==> buf[3 * j + 2] == B[j]
    {
      buf[3 * i + 2] := B[i];
      i := i + 1;
    }
    out := buf[..];
    var expected := Interleaved(R, G, B);
    forall j | 0 <= j < n
      ensures out[3 * j] == expected[3 * j] && out[3 * j + 1] == expected[3 * j + 1] && out[3 * j + 2] == expected[3 * j + 2]
    {
      assert out[3 * j] == buf[3 * j] && out[3 * j + 1] == buf[3 * j + 1] && out[3 * j + 2] == buf[3 * j + 2];
    }
    SamePixels(out, expected, n);
  }

  // ---------------------------------------------------------------------
  // The whole stream and its decoder
  // ---------------------------------------------------------------------

  /** Header bytes immediately followed by the interleaved payload, no padding. */
  function Encode(w: int, h: int, R: seq<byte>, G: seq<byte>, B: seq<byte>): (data: seq<byte>)
    requires |R| == |G| == |B|
    ensures |data| == |Header(w, h)| + 3 * |R|
    ensures data[|Header(w, h)|..] == Interleaved(R, G, B)
  {
    HeaderIsAscii(w, h);
    Ascii(Header(w, h)) + Interleaved(R, G, B)
  }

  /** Index of the first space in s, or |s| if there is none. */
  function IndexOfSpace(s: string): (i: nat)
    ensures i <= |s|
    ensures i < |s| ==> s[i] == ' '
    ensures forall k :: 0 <= k < i ==> s[k] != ' '
  {
    if s == [] || s[0] == ' ' then 0 else 1 + IndexOfSpace(s[1..])
  }

  /** One space-terminated integer: its value and the number of characters consumed. */
  function Token(s: string): Option<(int, nat)> {
    var i := IndexOfSpace(s);
    if i == |s| then None
    else match ParseInt(s[..i])
      case None => None
      case Some(v) => Some((v, i + 1))
  }

  lemma TokenOfIntToString(n: int, tail: string)
    ensures Token(IntToString(n) + " " + tail) == Some((n, |IntToString(n)| + 1))
  {
    var t := IntToString(n);
    var s := t + " " + tail;
    var i := IndexOfSpace(s);
    assert s[|t|] == ' ';
    assert i >= |t| by {
      assert forall k :: 0 <= k < |t| ==> s[k] == t[k];
    }
    assert s[..i] == t;
    ParseIntToString(n);
  }

  /** The header fields and the header's length, when text starts with a P6 header. */
  function ParseHeader(text: string): Option<(int, int, nat)> {
    if |text| < 3 || text[..3] != "P6 " then None
    else match Token(text[3..])
      case None => None
      case Some((w, i)) =>
        if 3 + i > |text| then None
        else match Token(text[3 + i..])
          case None => None
          case Some((h, j)) =>
            var n := 3 + i + j;
            if n + 4 > |text| || text[n..n + 4] != "255\n" then None
            else Some((w, h, n + 4))
  }

  lemma DropTwice<T>(s: seq<T>, i: nat, j: nat)
    requires i + j <= |s|
    ensures s[i..][j..] == s[i + j..]
  {
  }

  /** The header fields found one after the other, then the terminator, make a header. */
  lemma ParseHeaderOfFields(text: string, r1: string, r2: string, w: int, i: nat, h: int, j: nat)
    requires |text| >= 3 && text[..3] == "P6 " && text[3..] == r1
    requires Token(r1) == Some((w, i)) && i <= |r1| && r1[i..] == r2
    requires Token(r2) == Some((h, j)) && j + 4 <= |r2| && r2[j..j + 4] == "255\n"
    ensures ParseHeader(text) == Some((w, h, 3 + i + j + 4))
  {
    DropTwice(text, 3, i);
    DropTwice(text, 3 + i, j);
    assert text[3 + i + j..3 + i + j + 4] == r2[j..j + 4];
  }

  /** The header text, regrouped at its two fields. */
  lemma HeaderRegroup(ws: string, hs: string, tail: string)
    ensures "P6 " + ws + " " + hs + " 255\n" + tail == "P6 " + (ws + " " + (hs + " " + ("255\n" + tail)))
    ensures |"P6 " + ws + " " + hs + " 255\n"| == 3 + (|ws| + 1) + (|hs| + 1) + 4
  {
    assert "P6 " + ws + " " + hs + " 255\n" == "P6 " + ws + " " + hs + " " + "255\n";
  }

  /** Where the fields of "P6 " + ws + " " + hs + " 255\n" + tail start. */
  lemma HeaderSlices(ws: string, hs: string, tail: string)
    ensures var r2 := hs + " " + ("255\n" + tail);
      var r1 := ws + " " + r2;
      var text := "P6 " + r1;
      |text| >= 3 && text[..3] == "P6 " && text[3..] == r1 &&
      |ws| + 1 <= |r1| && r1[|ws| + 1..] == r2 &&
      |hs| + 1 + 4 <= |r2| && r2[|hs| + 1..|hs| + 1 + 4] == "255\n"
  {
    var r3 := "255\n" + tail;
    var r2 := hs + " " + r3;
    assert r2[|hs| + 1..] == r3;
    assert r3[..4] == "255\n";
    assert r2[|hs| + 1..|hs| + 1 + 4] == r3[..4];
  }

  /** A header whose two fields read back as tokens parses as that header, whatever follows it. */
  lemma ParseHeaderOfText(ws: string, hs: string, tail: string, w: int, h: int)
    requires Token(ws + " " + (hs + " " + ("255\n" + tail))) == Some((w, |ws| + 1))
    requires Token(hs + " " + ("255\n" + tail)) == Some((h, |hs| + 1))
    ensures ParseHeader("P6 " + ws + " " + hs + " 255\n" + tail) == Some((w, h, |"P6 " + ws + " " + hs + " 255\n"|))
  {
    HeaderRegroup(ws, hs, tail);
    HeaderSlices(ws, hs, tail);
    ParseHeaderOfFields("P6 " + (ws + " " + (hs + " " + ("255\n" + tail))), ws + " " + (hs + " " + ("255\n" + tail)),
      hs + " " + ("255\n" + tail), w, |ws| + 1, h, |hs| + 1);
  }

  lemma ParseHeaderOfHeader(w: int, h: int, tail: string)
    ensures ParseHeader(Header(w, h) + tail) == Some((w, h, |Header(w, h)|))
  {
    TokenOfIntToString(w, IntToString(h) + " " + ("255\n" + tail));
    TokenOfIntToString(h, "255\n" + tail);
    ParseHeaderOfText(IntToString(w), IntToString(h), tail, w, h);
  }

  function Decode(data: seq<byte>): Option<Raster> {
    match ParseHeader(Text(data))
    case None => None
    case Some((w, h, n)) =>
      if n > |data| then None
      else
        var payload := data[n..];
        if w * h < 0 || |payload| != 3 * (w * h) then None
        else Some(Raster(w, h, Plane(payload, 0), Plane(payload, 1), Plane(payload, 2)))
  }

  /** Encoding and decoding recovers the width, height and every plane exactly. */
  lemma DecodeEncode(w: int, h: int, R: seq<byte>, G: seq<byte>, B: seq<byte>)
    requires |R| == |G| == |B| == w * h
    ensures Decode(Encode(w, h, R, G, B)) == Some(Raster(w, h, R, G, B))
  {
    var hdr := Header(w, h);
    var payload := Interleaved(R, G, B);
    HeaderIsAscii(w, h);
    TextOfAscii(hdr, payload);
    ParseHeaderOfHeader(w, h, Text(payload));
    PlanesOfInterleaved(R, G, B);
  }
}
