/// Bytes, little-endian fields and the bridge between byte values and 8-bit vectors.
module Bytes {
  type byte = x: int | 0 <= x < 0x100
  type u16 = x: nat | x < 0x1_0000
  type u32 = x: nat | x < 0x1_0000_0000
  type i32 = x: int | -0x8000_0000 <= x < 0x8000_0000

  /** BinaryReader.ReadUInt16: two bytes, least significant first. */
  function U16(d: seq<byte>, i: nat): (v: u16)
    requires i + 2 <= |d|
  {
    d[i] as int + 0x100 * d[i + 1] as int
  }

  /** BinaryReader.ReadUInt32: four bytes, least significant first. */
  function U32(d: seq<byte>, i: nat): (v: u32)
    requires i + 4 <= |d|
  {
    U16(d, i) + 0x1_0000 * U16(d, i + 2)
  }

  /** The two's-complement reading of a 32-bit word, as C# casts a uint to int. */
  function Signed32(w: u32): (v: i32)
  {
    if w < 0x8000_0000 then w else w - 0x1_0000_0000
  }

  /** Signed32 keeps the word's value modulo 2^32. */
  lemma Signed32Mod(w: u32)
    ensures Signed32(w) % 0x1_0000_0000 == w
  {
  }

  /** The 32-bit word holding the two's-complement bits of an int. */
  function Unsigned32(v: i32): (w: u32)
    ensures Signed32(w) == v
  {
    if v >= 0 then v else v + 0x1_0000_0000
  }

  /** C#'s unchecked int arithmetic: the value wraps to 32 bits. */
  function Wrap32(x: int): (v: i32)
    ensures (v - x) % 0x1_0000_0000 == 0
  {
    Signed32(x % 0x1_0000_0000)
  }

  /** BinaryReader.ReadInt32. */
  function I32(d: seq<byte>, i: nat): (v: i32)
    requires i + 4 <= |d|
  {
    Signed32(U32(d, i))
  }

  /** BinaryReader.ReadInt16. */
  function I16(d: seq<byte>, i: nat): (v: int)
    requires i + 2 <= |d|
    ensures -0x8000 <= v < 0x8000 && v % 0x1_0000 == U16(d, i)
  {
    var w := U16(d, i);
    if w < 0x8000 then w else w - 0x1_0000
  }

  /** BinaryWriter.Write(ushort). */
  function LE16(v: u16): (s: seq<byte>)
    ensures |s| == 2
  {
    [v % 0x100, v / 0x100]
  }

  /** BinaryWriter.Write(uint). */
  function LE32(v: u32): (s: seq<byte>)
    ensures |s| == 4
  {
    LE16(v % 0x1_0000) + LE16(v / 0x1_0000)
  }

  /** BinaryWriter.Write(int). */
  function LEI32(v: i32): (s: seq<byte>)
    ensures |s| == 4
  {
    LE32(Unsigned32(v))
  }

  lemma U16Encoded(d: seq<byte>, i: nat, v: u16)
    requires i + 2 <= |d| && d[i..i + 2] == LE16(v)
    ensures U16(d, i) == v
  {
    assert d[i] == d[i..i + 2][0] && d[i + 1] == d[i..i + 2][1];
  }

  lemma U32Encoded(d: seq<byte>, i: nat, v: u32)
    requires i + 4 <= |d| && d[i..i + 4] == LE32(v)
    ensures U32(d, i) == v
  {
    assert d[i..i + 2] == d[i..i + 4][..2];
    assert d[i + 2..i + 4] == d[i..i + 4][2..];
    U16Encoded(d, i, v % 0x1_0000);
    U16Encoded(d, i + 2, v / 0x1_0000);
  }

  lemma I32Encoded(d: seq<byte>, i: nat, v: i32)
    requires i + 4 <= |d| && d[i..i + 4] == LEI32(v)
    ensures I32(d, i) == v
  {
    U32Encoded(d, i, Unsigned32(v));
  }

  /** A field written between any two byte strings reads back from its position. */
  lemma U16At(a: seq<byte>, v: u16, b: seq<byte>)
    ensures U16(a + LE16(v) + b, |a|) == v
  {
    var d := a + LE16(v) + b;
    assert d[|a|..|a| + 2] == LE16(v);
    U16Encoded(d, |a|, v);
  }

  lemma U32At(a: seq<byte>, v: u32, b: seq<byte>)
    ensures U32(a + LE32(v) + b, |a|) == v
  {
    var d := a + LE32(v) + b;
    assert d[|a|..|a| + 4] == LE32(v);
    U32Encoded(d, |a|, v);
  }

  lemma I32At(a: seq<byte>, v: i32, b: seq<byte>)
    ensures I32(a + LEI32(v) + b, |a|) == v
  {
    U32At(a, Unsigned32(v), b);
  }

  /** The bytes from i up to j, taken one at a time. */
  function Span(d: seq<byte>, i: nat, j: nat): (s: seq<byte>)
    requires i <= j <= |d|
    ensures |s| == j - i && forall k :: 0 <= k < j - i ==> s[k] == d[i + k]
    decreases j - i
  {
    if i == j then [] else [d[i]] + Span(d, i + 1, j)
  }

  lemma SpanIsSlice(d: seq<byte>, i: nat, j: nat)
    requires i <= j <= |d|
    ensures Span(d, i, j) == d[i..j]
  {
  }

  lemma LE16Decoded(d: seq<byte>, i: nat)
    requires i + 2 <= |d|
    ensures LE16(U16(d, i)) == d[i..i + 2]
  {
  }

  lemma LE32Decoded(d: seq<byte>, i: nat)
    requires i + 4 <= |d|
    ensures LE32(U32(d, i)) == d[i..i + 4]
  {
    var w := U32(d, i);
    assert w % 0x1_0000 == U16(d, i) && w / 0x1_0000 == U16(d, i + 2);
    LE16Decoded(d, i);
    LE16Decoded(d, i + 2);
    assert d[i..i + 4] == d[i..i + 2] + d[i + 2..i + 4];
  }

  /** The 8-bit vector with the same value as a byte. */
  function Bits(b: byte): (v: bv8)
    ensures v as int == b
  {
    BitsValue(b);
    b as bv8
  }

  lemma BitsValue(b: byte)
    ensures (b as bv8) as int == b
  {
  }

  lemma ValueBits(v: bv8)
    ensures ((v as int) as bv8) == v
  {
  }

  lemma XorCancels(a: bv8, k: bv8)
    ensures (a ^ k) ^ k == a
  {
  }

  /** `b ^= k` on a C# byte. */
  function XorByte(b: byte, k: bv8): (r: byte)
  {
    ((b as bv8) ^ k) as int
  }

  lemma XorByteTwice(b: byte, k: bv8)
    ensures XorByte(XorByte(b, k), k) == b
  {
    ValueBits((b as bv8) ^ k);
    XorCancels(b as bv8, k);
    BitsValue(b);
  }

  /** The low eight bits of an integer, as a C# `(byte)` cast keeps them. */
  function LowByte(x: int): (b: byte)
    ensures (x - b) % 0x100 == 0
  {
    x % 0x100
  }

  /** The byte k places after position p. */
  function ByteAt(d: seq<byte>, p: nat, k: nat): byte
    requires p + k < |d|
  {
    d[p + k]
  }

  /**
   * Bytes e standing at position p of d: the reads below see e's own bytes there.
   * The trigger keeps the fact from firing on every read of d.
   */
  predicate StandsAt(d: seq<byte>, p: nat, e: seq<byte>)
  {
    p + |e| <= |d| && forall k {:trigger ByteAt(d, p, k)} :: 0 <= k < |e| ==> ByteAt(d, p, k) == e[k]
  }

  /** A part of e, read from d where e stands. */
  lemma PartAt(d: seq<byte>, p: nat, e: seq<byte>, i: nat, j: nat)
    requires StandsAt(d, p, e) && i <= j <= |e|
    ensures d[p + i..p + j] == e[i..j]
  {
    forall k | 0 <= k < j - i ensures d[p + i..p + j][k] == e[i..j][k] {
      assert ByteAt(d, p, i + k) == e[i + k];
    }
  }

  /** Where e stands, each part of it stands too. */
  lemma StandsPart(d: seq<byte>, p: nat, e: seq<byte>, i: nat, j: nat)
    requires StandsAt(d, p, e) && i <= j <= |e|
    ensures StandsAt(d, p + i, e[i..j])
  {
    forall k | 0 <= k < j - i ensures ByteAt(d, p + i, k) == e[i..j][k] {
      assert ByteAt(d, p, i + k) == e[i + k];
    }
  }

  /** Bytes written between any other bytes stand at their position. */
  lemma StandsBetween(pre: seq<byte>, e: seq<byte>, rest: seq<byte>)
    ensures StandsAt(pre + e + rest, |pre|, e)
  {
    forall k | 0 <= k < |e| ensures ByteAt(pre + e + rest, |pre|, k) == e[k] {
    }
  }

  /** Bytes stand at the start of themselves. */
  lemma StandsAlone(e: seq<byte>)
    ensures StandsAt(e, 0, e)
  {
    forall k | 0 <= k < |e| ensures ByteAt(e, 0, k) == e[k] {
    }
  }
}
