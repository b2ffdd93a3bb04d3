/** UTF-8 (section 3 of RFC 3629), and the length of a text in UTF-16 code units. */
module Utf8 {
  import opened Bytes
  import opened Options

  /** A Unicode character; surrogates are not characters, and a PostgreSQL text holds none. */
  type Scalar = c: int | 0 <= c < 0xD800 || 0xE000 <= c < 0x11_0000

  /** The six bits of a number that `scale` counts. */
  function Sextet(c: int, scale: int): (r: int)
    requires scale > 0
    ensures 0 <= r < 64
  {
    c / scale % 64
  }

  function EncodeScalar(c: Scalar): (r: seq<byte>)
    ensures 1 <= |r| <= 4
  {
    if c < 0x80 then [c]
    else if c < 0x800 then [0xC0 + c / 64, 0x80 + Sextet(c, 1)]
    else if c < 0x1_0000 then [0xE0 + c / 4096, 0x80 + Sextet(c, 64), 0x80 + Sextet(c, 1)]
    else [0xF0 + c / 262_144, 0x80 + Sextet(c, 4096), 0x80 + Sextet(c, 64), 0x80 + Sextet(c, 1)]
  }

  function EncodeUtf8(text: seq<Scalar>): seq<byte> {
    if text == [] then [] else EncodeScalar(text[0]) + EncodeUtf8(text[1..])
  }

  predicate Continues(b: byte) { 0x80 <= b < 0xC0 }

  /** A decoded character, unless a shorter form exists or it is none. */
  function Checked(c: int, least: int, n: nat): (r: Option<(Scalar, nat)>)
    ensures r.Some? ==> r.value == (c, n) && c >= least
  {
    if c < least || c < 0 || 0xD800 <= c < 0xE000 || c >= 0x11_0000 then None else Some((c, n))
  }

  function Join2(a: int, b: int): int { (a - 0xC0) * 64 + (b - 0x80) }

  function Join3(a: int, b: int, c: int): int { (a - 0xE0) * 4096 + (b - 0x80) * 64 + (c - 0x80) }

  function Join4(a: int, b: int, c: int, d: int): int {
    (a - 0xF0) * 262_144 + (b - 0x80) * 4096 + (c - 0x80) * 64 + (d - 0x80)
  }

  /** The character at the start of the bytes, with the number of bytes it takes. */
  function DecodeScalar(b: seq<byte>): (r: Option<(Scalar, nat)>)
    requires b != []
    ensures r.Some? ==> 1 <= r.value.1 <= |b|
  {
    if b[0] < 0x80 then Some((b[0], 1))
    else if b[0] < 0xC0 || |b| < 2 || !Continues(b[1]) then None
    else if b[0] < 0xE0 then Checked(Join2(b[0], b[1]), 0x80, 2)
    else if |b| < 3 || !Continues(b[2]) then None
    else if b[0] < 0xF0 then Checked(Join3(b[0], b[1], b[2]), 0x800, 3)
    else if b[0] >= 0xF8 || |b| < 4 || !Continues(b[3]) then None
    else Checked(Join4(b[0], b[1], b[2], b[3]), 0x1_0000, 4)
  }

  /** None if any part of the bytes is not UTF-8. */
  function DecodeUtf8(b: seq<byte>): Option<seq<Scalar>>
    decreases |b|
  {
    if b == [] then Some([])
    else
      var first := DecodeScalar(b);
      if first.None? then None
      else
        var rest := DecodeUtf8(b[first.value.1..]);
        if rest.None? then None else Some([first.value.0] + rest.value)
  }

  lemma Nested(c: nat)
    ensures c / 4096 == c / 64 / 64 && c / 262_144 == c / 64 / 64 / 64
  {}

  /** Numbers written in base 64 can be read off again. */
  lemma Digits(w: nat, x: nat, y: nat, z: nat)
    requires x < 64 && y < 64 && z < 64
    ensures var c := w * 262_144 + x * 4096 + y * 64 + z;
            c / 262_144 == w && Sextet(c, 4096) == x && Sextet(c, 64) == y && Sextet(c, 1) == z
            && c / 4096 == w * 64 + x && c / 64 == (w * 64 + x) * 64 + y
  {
    var c := w * 262_144 + x * 4096 + y * 64 + z;
    var b := (w * 64 + x) * 64 + y;
    DigitAt(c, b, z);
    DigitAt(b, w * 64 + x, y);
    DigitAt(w * 64 + x, w, x);
    Nested(c);
  }

  lemma DigitAt(c: nat, q: nat, r: nat)
    requires r < 64 && c == q * 64 + r
    ensures c / 64 == q && c % 64 == r
  {}

  lemma Digitized(c: nat)
    ensures c == c / 262_144 * 262_144 + Sextet(c, 4096) * 4096 + Sextet(c, 64) * 64 + Sextet(c, 1)
    ensures c / 4096 == c / 262_144 * 64 + Sextet(c, 4096) && c / 64 == c / 4096 * 64 + Sextet(c, 64)
  {
    Nested(c);
  }

  lemma ScalarRoundTrip(c: Scalar, rest: seq<byte>)
    ensures DecodeScalar(EncodeScalar(c) + rest) == Some((c, |EncodeScalar(c)|))
  {
    Digitized(c);
    hide Sextet;
    var e := EncodeScalar(c);
    var b := e + rest;
    assert forall i :: 0 <= i < |e| ==> b[i] == e[i];
  }

  lemma Canonical2(a: byte, b: byte)
    requires 0xC0 <= a < 0xE0 && Continues(b) && Checked(Join2(a, b), 0x80, 2).Some?
    ensures EncodeScalar(Join2(a, b)) == [a, b]
  {
    Digits(0, 0, a - 0xC0, b - 0x80);
    hide Sextet;
  }

  lemma Canonical3(a: byte, b: byte, c: byte)
    requires 0xE0 <= a < 0xF0 && Continues(b) && Continues(c) && Checked(Join3(a, b, c), 0x800, 3).Some?
    ensures EncodeScalar(Join3(a, b, c)) == [a, b, c]
  {
    Digits(0, a - 0xE0, b - 0x80, c - 0x80);
    hide Sextet;
  }

  lemma Canonical4(a: byte, b: byte, c: byte, d: byte)
    requires 0xF0 <= a < 0xF8 && Continues(b) && Continues(c) && Continues(d)
    requires Checked(Join4(a, b, c, d), 0x1_0000, 4).Some?
    ensures EncodeScalar(Join4(a, b, c, d)) == [a, b, c, d]
  {
    Digits(a - 0xF0, b - 0x80, c - 0x80, d - 0x80);
    hide Sextet;
  }

  lemma ScalarIsCanonical(b: seq<byte>)
    requires b != [] && DecodeScalar(b).Some?
    ensures EncodeScalar(DecodeScalar(b).value.0) == b[..DecodeScalar(b).value.1]
  {
    hide Checked, Join2, Join3, Join4, EncodeScalar;
    if b[0] < 0x80 {
      OneByte(b[0]);
    } else if b[0] < 0xE0 {
      Canonical2(b[0], b[1]);
    } else if b[0] < 0xF0 {
      Canonical3(b[0], b[1], b[2]);
    } else {
      Canonical4(b[0], b[1], b[2], b[3]);
    }
  }

  lemma OneByte(b: byte)
    requires b < 0x80
    ensures EncodeScalar(b) == [b]
  {}

  /** Every text comes back from its bytes. */
  lemma {:induction false} DecodeEncodeUtf8(text: seq<Scalar>)
    ensures DecodeUtf8(EncodeUtf8(text)) == Some(text)
  {
    if text != [] {
      var b, first := EncodeUtf8(text), EncodeScalar(text[0]);
      ScalarRoundTrip(text[0], EncodeUtf8(text[1..]));
      assert b[|first|..] == EncodeUtf8(text[1..]);
      hide EncodeScalar, DecodeScalar;
      DecodeEncodeUtf8(text[1..]);
      assert [text[0]] + text[1..] == text;
    }
  }

  /** No bytes but those of a text decode to it. */
  lemma {:induction false} EncodeDecodeUtf8(b: seq<byte>)
    requires DecodeUtf8(b).Some?
    ensures EncodeUtf8(DecodeUtf8(b).value) == b
    decreases |b|
  {
    if b != [] {
      var n := DecodeScalar(b).value.1;
      ScalarIsCanonical(b);
      hide EncodeScalar, DecodeScalar;
      EncodeDecodeUtf8(b[n..]);
      assert b == b[..n] + b[n..];
      assert DecodeUtf8(b).value[1..] == DecodeUtf8(b[n..]).value;
    }
  }

  /** The length JavaScript reports: two units for a character beyond the basic plane. */
  function Units(text: seq<Scalar>): nat {
    if text == [] then 0 else (if text[0] < 0x1_0000 then 1 else 2) + Units(text[1..])
  }

  lemma {:induction false} UnitsBound(text: seq<Scalar>)
    ensures Units(text) <= |EncodeUtf8(text)| <= 3 * Units(text)
  {
    if text != [] { UnitsBound(text[1..]); }
  }

  // ---------------------------------------------------------------------------
  // The bytes and the units as their standards define them
  // ---------------------------------------------------------------------------

  /** UTF8-char in the grammar of section 4 of RFC 3629. */
  ghost predicate Octets(b: seq<byte>) {
    || (|b| == 1 && b[0] <= 0x7F)
    || (|b| == 2 && 0xC2 <= b[0] <= 0xDF && Continues(b[1]))
    || (|b| == 3 && (|| (b[0] == 0xE0 && 0xA0 <= b[1] <= 0xBF)
                     || ((0xE1 <= b[0] <= 0xEC || 0xEE <= b[0] <= 0xEF) && Continues(b[1]))
                     || (b[0] == 0xED && 0x80 <= b[1] <= 0x9F))
        && Continues(b[2]))
    || (|b| == 4 && (|| (b[0] == 0xF0 && 0x90 <= b[1] <= 0xBF)
                     || (0xF1 <= b[0] <= 0xF3 && Continues(b[1]))
                     || (b[0] == 0xF4 && 0x80 <= b[1] <= 0x8F))
        && Continues(b[2]) && Continues(b[3]))
  }

  /** The bits of the octets that are not markers, side by side (section 3 of RFC 3629). */
  ghost function Payload(b: seq<byte>): int
    requires Octets(b)
  {
    var x: seq<int> := b;
    if |x| == 1 then x[0]
    else if |x| == 2 then x[0] % 32 * 64 + x[1] % 64
    else if |x| == 3 then x[0] % 16 * 4_096 + x[1] % 64 * 64 + x[2] % 64
    else x[0] % 8 * 262_144 + x[1] % 64 * 4_096 + x[2] % 64 * 64 + x[3] % 64
  }

  lemma Markers(b: byte)
    ensures 0x80 <= b < 0xC0 ==> b % 64 == b - 0x80
    ensures 0xC0 <= b < 0xE0 ==> b % 32 == b - 0xC0
    ensures 0xE0 <= b < 0xF0 ==> b % 16 == b - 0xE0
    ensures 0xF0 <= b < 0xF8 ==> b % 8 == b - 0xF0
  {}

  lemma PayloadIs(b: seq<byte>)
    requires Octets(b)
    ensures Payload(b) == if |b| == 1 then b[0] else if |b| == 2 then Join2(b[0], b[1])
                          else if |b| == 3 then Join3(b[0], b[1], b[2]) else Join4(b[0], b[1], b[2], b[3])
  {
    Markers(b[0]);
    if |b| > 1 { Markers(b[1]); }
    if |b| > 2 { Markers(b[2]); }
    if |b| > 3 { Markers(b[3]); }
  }

  /** The reader accepts each character of that grammar, as the one its bits stand for. */
  lemma DecodesOctets(b: seq<byte>, rest: seq<byte>)
    requires Octets(b)
    ensures DecodeScalar(b + rest) == Some((Payload(b), |b|))
  {
    PayloadIs(b);
    hide Payload;
    assert (b + rest)[0] == b[0] && forall i :: 0 <= i < |b| ==> (b + rest)[i] == b[i];
  }

  /** And the writer writes only such. */
  lemma EncodesOctets(c: Scalar)
    ensures Octets(EncodeScalar(c)) && Payload(EncodeScalar(c)) == c
  {
    DecodeEncodeUtf8([c]);
    WritesOctets(c);
    var b := EncodeScalar(c);
    DecodesOctets(b, []);
    assert EncodeUtf8([c]) == b + [] by { assert [c][1..] == []; }
    hide DecodeScalar, EncodeScalar, Payload, Octets;
  }

  lemma WritesOctets(c: Scalar)
    ensures Octets(EncodeScalar(c))
  {}

  /** UTF-16 (section 2.1 of RFC 2781). */
  ghost function EncodeUtf16(text: seq<Scalar>): seq<int> {
    if text == [] then []
    else
      var u: int := text[0] as int - 0x1_0000;
      (if text[0] < 0x1_0000 then [text[0]] else [0xD800 + u / 0x400, 0xDC00 + u % 0x400]) + EncodeUtf16(text[1..])
  }

  lemma {:induction false} UnitsAreUtf16(text: seq<Scalar>)
    ensures Units(text) == |EncodeUtf16(text)|
  {
    if text != [] { UnitsAreUtf16(text[1..]); }
  }
}
