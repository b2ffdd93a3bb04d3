/** Base64url without padding (section 5 of RFC 4648). */
module Base64Url {
  import opened Bytes

  predicate InAlphabet(c: char) { 'A' <= c <= 'Z' || 'a' <= c <= 'z' || '0' <= c <= '9' || c == '-' || c == '_' }

  function Char(v: int): (c: char)
    requires 0 <= v < 64
    ensures InAlphabet(c) && Value(c) == v
  {
    if v < 26 then 'A' + v as char
    else if v < 52 then 'a' + (v - 26) as char
    else if v < 62 then '0' + (v - 52) as char
    else if v == 62 then '-' else '_'
  }

  function Value(c: char): (v: int)
    ensures 0 <= v < 64
  {
    if 'A' <= c <= 'Z' then c as int - 'A' as int
    else if 'a' <= c <= 'z' then c as int - 'a' as int + 26
    else if '0' <= c <= '9' then c as int - '0' as int + 52
    else if c == '-' then 62 else 63
  }

  function Group(a: byte, b: byte, c: byte): (r: string)
    ensures |r| == 4
  {
    [Char(a / 4), Char(a % 4 * 16 + b / 16), Char(b % 16 * 4 + c / 64), Char(c % 64)]
  }

  function Encode(b: seq<byte>): string {
    if |b| == 0 then ""
    else if |b| == 1 then [Char(b[0] / 4), Char(b[0] % 4 * 16)]
    else if |b| == 2 then [Char(b[0] / 4), Char(b[0] % 4 * 16 + b[1] / 16), Char(b[1] % 16 * 4)]
    else Group(b[0], b[1], b[2]) + Encode(b[3..])
  }

  type Sextet = v: int | 0 <= v < 64

  /** The three bytes in four characters. */
  function Join(v: Sextet, w: Sextet, x: Sextet, y: Sextet): seq<byte> {
    [v * 4 + w / 16, w % 16 * 16 + x / 4, x % 4 * 64 + y]
  }

  function Decode(t: string): seq<byte> {
    if |t| < 2 then []
    else if |t| == 2 then [Value(t[0]) * 4 + Value(t[1]) / 16]
    else if |t| == 3 then [Value(t[0]) * 4 + Value(t[1]) / 16, Value(t[1]) % 16 * 16 + Value(t[2]) / 4]
    else Join(Value(t[0]), Value(t[1]), Value(t[2]), Value(t[3])) + Decode(t[4..])
  }

  lemma SplitJoins(a: byte, b: byte, c: byte)
    ensures Join(a / 4, a % 4 * 16 + b / 16, b % 16 * 4 + c / 64, c % 64) == [a, b, c]
  {
    SplitPairs(a, b);
    SplitPairs(b, c);
    JoinsTo(a, b, c, a % 4 * 16 + b / 16, b % 16 * 4 + c / 64);
  }

  lemma JoinsTo(a: byte, b: byte, c: byte, w: Sextet, x: Sextet)
    requires w / 16 == a % 4 && w % 16 == b / 16 && x / 4 == b % 16 && x % 4 == c / 64
    ensures Join(a / 4, w, x, c % 64) == [a, b, c]
  {}

  /** The low part of one byte and the high part of the next, side by side, come apart again. */
  lemma SplitPairs(a: byte, b: byte)
    ensures (a % 4 * 16 + b / 16) / 16 == a % 4 && (a % 4 * 16 + b / 16) % 16 == b / 16
    ensures (a % 16 * 4 + b / 64) / 4 == a % 16 && (a % 16 * 4 + b / 64) % 4 == b / 64
  {}

  /** Three bytes come back from their four characters. */
  lemma DecodeGroup(a: byte, b: byte, c: byte, rest: string)
    ensures Decode(Group(a, b, c) + rest) == [a, b, c] + Decode(rest)
  {
    SplitJoins(a, b, c);
    hide Char, Value, Join;
    var t := Group(a, b, c) + rest;
    assert t[4..] == rest;
  }

  lemma DecodeEnd(a: byte, b: byte)
    ensures Decode(Encode([])) == [] && Decode(Encode([a])) == [a] && Decode(Encode([a, b])) == [a, b]
  {
    hide Char, Value;
  }

  lemma {:induction false} DecodeEncode(b: seq<byte>)
    ensures Decode(Encode(b)) == b
  {
    hide Decode, Group, Char, Value;
    if |b| >= 3 {
      DecodeGroup(b[0], b[1], b[2], Encode(b[3..]));
      DecodeEncode(b[3..]);
      assert [b[0], b[1], b[2]] + b[3..] == b;
    } else if b == [] {
      DecodeEnd(0, 0);
    } else {
      hide Encode;
      DecodeEnd(b[0], b[|b| - 1]);
      assert b == if |b| == 1 then [b[0]] else [b[0], b[1]];
    }
  }

  lemma {:induction false} EncodeShape(b: seq<byte>)
    ensures 3 * |Encode(b)| <= 4 * |b| + 2 && |Encode(b)| >= |b|
    ensures forall c :: c in Encode(b) ==> InAlphabet(c)
  {
    if |b| >= 3 { EncodeShape(b[3..]); }
  }

  // ---------------------------------------------------------------------------
  // The text as the RFC defines it
  // ---------------------------------------------------------------------------

  /** The runs of Table 2 of RFC 4648. */
  lemma AlphabetIs(v: int)
    requires 0 <= v < 63
    ensures Char(0) == 'A' && Char(25) == 'Z' && Char(26) == 'a' && Char(51) == 'z'
    ensures Char(52) == '0' && Char(61) == '9' && Char(62) == '-' && Char(63) == '_'
    ensures v !in {25, 51, 61, 62} ==> Char(v + 1) as int == Char(v) as int + 1
  {}

  ghost function ByteAt(b: seq<byte>, i: nat): int { if i < |b| then b[i] else 0 }

  /** The q-th 24-bit group of the input, filled up with zero bits at its end. */
  ghost function Bits24(b: seq<byte>, q: nat): int {
    ByteAt(b, 3 * q) * 65_536 + ByteAt(b, 3 * q + 1) * 256 + ByteAt(b, 3 * q + 2)
  }

  /** Six bits of a group; the last ones are those that count single units. */
  ghost function Bits6(group: int, k: nat): (v: int)
    requires k <= 3
    ensures 0 <= v < 64
    decreases 3 - k
  {
    if k == 3 then group % 64 else Bits6(group / 64, k + 1)
  }

  lemma Shifted(n: int, m: int, y: Sextet, k: nat)
    requires n == m * 64 + y && k <= 3
    ensures Bits6(n, k) == if k == 3 then y else Bits6(m, k + 1)
  {
    assert n / 64 == m && n % 64 == y;
  }

  lemma GroupBits(a: byte, b: byte, c: byte)
    ensures var n: int := a as int * 65_536 + b as int * 256 + c as int;
            && Bits6(n, 0) == a / 4 && Bits6(n, 1) == a % 4 * 16 + b / 16
            && Bits6(n, 2) == b % 16 * 4 + c / 64 && Bits6(n, 3) == c % 64
  {
    var n: int := a as int * 65_536 + b as int * 256 + c as int;
    var m: int := a as int * 1_024 + b as int * 4 + c as int / 64;
    var k: int := a as int * 16 + b as int / 16;
    assert n == m * 64 + c % 64;
    assert m == k * 64 + (b % 16 * 4 + c / 64);
    assert k == (a as int / 4) * 64 + (a % 4 * 16 + b / 16);
    Unfold(n, m, k, a / 4, a % 4 * 16 + b / 16, b % 16 * 4 + c / 64, c % 64);
  }

  lemma Unfold(n: int, m: int, k: int, v: Sextet, w: Sextet, x: Sextet, y: Sextet)
    requires n == m * 64 + y && m == k * 64 + x && k == v * 64 + w
    ensures Bits6(n, 0) == v && Bits6(n, 1) == w && Bits6(n, 2) == x && Bits6(n, 3) == y
  {
    hide Bits6;
    Shifted(n, m, y, 0); Shifted(n, m, y, 1); Shifted(n, m, y, 2); Shifted(n, m, y, 3);
    Shifted(m, k, x, 1); Shifted(m, k, x, 2); Shifted(m, k, x, 3);
    Shifted(k, v, w, 2); Shifted(k, v, w, 3);
    Shifted(v, 0, v, 3);
  }

  lemma EncodeLength(b: seq<byte>)
    ensures |Encode(b)| == (4 * |b| + 2) / 3
  {
    if |b| >= 3 { EncodeLength(b[3..]); }
  }

  lemma GroupValues(a: byte, b: byte, c: byte, i: nat)
    requires i < 4
    ensures Value(Group(a, b, c)[i]) == Bits6(a as int * 65_536 + b as int * 256 + c as int, i)
  {
    GroupBits(a, b, c);
    hide Char, Value, Bits6;
  }

  /** A last group of one or two bytes is written as if zeros followed. */
  lemma ShortGroup(a: byte, b: byte)
    ensures Encode([a]) == Group(a, 0, 0)[..2] && Encode([a, b]) == Group(a, b, 0)[..3]
  {
    hide Char;
    assert a % 4 * 16 + 0 / 16 == a % 4 * 16 && b % 16 * 4 + 0 / 64 == b % 16 * 4;
  }

  lemma FirstGroup(b: seq<byte>, i: nat)
    requires i < 4 && i < |Encode(b)|
    ensures Value(Encode(b)[i]) == Bits6(Bits24(b, 0), i)
  {
    hide Char, Value, Bits6, Group;
    if |b| >= 3 {
      GroupValues(b[0], b[1], b[2], i);
    } else {
      hide Encode;
      assert b != [] by { EncodeLength(b); }
      ShortGroup(b[0], ByteAt(b, 1));
      assert b == if |b| == 1 then [b[0]] else [b[0], b[1]];
      GroupValues(b[0], ByteAt(b, 1), 0, i);
    }
  }

  /** The text has a character for each six bits that hold input, the one for exactly those bits; the bits that
      fill up the last one are zero. */
  lemma {:induction false} EncodeIsRfc(b: seq<byte>, i: nat)
    ensures |Encode(b)| == (4 * |b| + 2) / 3
    ensures i < |Encode(b)| ==> Value(Encode(b)[i]) == Bits6(Bits24(b, i / 4), i % 4)
    decreases |b|
  {
    EncodeLength(b);
    hide Char, Value, Bits6, Bits24;
    if i < |Encode(b)| {
      if i < 4 {
        FirstGroup(b, i);
        assert i / 4 == 0 && i % 4 == i;
      } else {
        assert Encode(b)[i] == Encode(b[3..])[i - 4];
        EncodeIsRfc(b[3..], i - 4);
        NextGroup(b, i);
      }
    }
  }

  lemma NextGroup(b: seq<byte>, i: nat)
    requires |b| >= 3 && i >= 4
    ensures Bits24(b, i / 4) == Bits24(b[3..], (i - 4) / 4) && i % 4 == (i - 4) % 4
  {
    assert i / 4 == (i - 4) / 4 + 1;
  }
}
