/// EncryptedConfig.cs: the obfuscation of system.cfg, undone byte by byte: every byte with
/// its high bit set is complemented, and the result is read as ASCII text.
module EncryptedConfig {
  import opened Bytes

  /** One byte of the transform: `if (b[i] >= 0x80) b[i] ^= 0xFF`. */
  function Clear(b: byte): byte
  {
    if b >= 0x80 then XorByte(b, 0xFF) else b
  }

  /** Complementing a byte with its high bit set gives 255 minus it, which is below 0x80. */
  lemma ComplementValue(b: byte)
    requires b >= 0x80
    ensures XorByte(b, 0xFF) == 0xFF - b
  {
    var v := b as bv8;
    assert v ^ 0xFF == 0xFF - v;
    BitsValue(b);
  }

  lemma ClearBelow(b: byte)
    ensures Clear(b) < 0x80
    ensures b < 0x80 ==> Clear(b) == b
    ensures b >= 0x80 ==> Clear(b) == 0xFF - b
  {
    if b >= 0x80 {
      ComplementValue(b);
    }
  }

  /** The whole buffer after the loop. */
  function Cleared(d: seq<byte>): (r: seq<byte>)
    ensures |r| == |d|
    ensures forall i :: 0 <= i < |d| ==> r[i] == Clear(d[i])
  {
    seq(|d|, i requires 0 <= i < |d| => Clear(d[i]))
  }

  /**
   * Encoding.ASCII.GetString: bytes below 0x80 are the characters of those codes, any other
   * byte becomes '?'.
   */
  function AsciiText(d: seq<byte>): (s: string)
    ensures |s| == |d|
    ensures forall i :: 0 <= i < |d| ==> s[i] == if d[i] < 0x80 then d[i] as char else '?'
  {
    seq(|d|, i requires 0 <= i < |d| => if d[i] < 0x80 then d[i] as char else '?')
  }

  /** Every byte of the cleared buffer is below 0x80, and bytes that were already are kept. */
  lemma ClearedIsAscii(d: seq<byte>)
    ensures forall i :: 0 <= i < |d| ==> Cleared(d)[i] < 0x80
    ensures forall i :: 0 <= i < |d| && d[i] < 0x80 ==> Cleared(d)[i] == d[i]
    ensures forall i :: 0 <= i < |d| && d[i] >= 0x80 ==> Cleared(d)[i] == 0xFF - d[i]
  {
    forall i | 0 <= i < |d| ensures Cleared(d)[i] < 0x80 && (d[i] >= 0x80 ==> Cleared(d)[i] == 0xFF - d[i]) {
      ClearBelow(d[i]);
    }
  }

  /** The transform is idempotent: clearing a cleared buffer changes nothing. */
  lemma ClearedIdempotent(d: seq<byte>)
    ensures Cleared(Cleared(d)) == Cleared(d)
  {
    ClearedIsAscii(d);
  }

  /** The decoded text: one character per byte with the cleared byte's code, never a '?' substitute. */
  lemma TextOfCleared(d: seq<byte>)
    ensures forall i :: 0 <= i < |d| ==> AsciiText(Cleared(d))[i] as int == Cleared(d)[i]
  {
    ClearedIsAscii(d);
  }

  /**
   * DecryptConfigFile on the file's bytes (reading the file is left to the caller): the
   * buffer is cleared in place, then decoded as ASCII.
   */
  method DecryptConfigFile(contents: seq<byte>) returns (text: string)
    ensures text == AsciiText(Cleared(contents))
  {
    var b := new byte[|contents|](i requires 0 <= i < |contents| => contents[i]);
    var i := 0;
    while i < b.Length
      invariant 0 <= i <= b.Length
      invariant b[..i] == Cleared(contents)[..i]
      invariant b[i..] == contents[i..]
    {
      if b[i] >= 0x80 {
        b[i] := XorByte(b[i], 0xFF);
      }
      i := i + 1;
    }
    text := AsciiText(b[..]);
  }
}
