/// A BinaryReader over a byte stream: the stream's bytes plus the reader's position.
/// Every read takes the position and returns the position after it; a read that runs
/// past the end fails like BinaryReader's EndOfStreamException.
module Cursor {
  import opened Outcome
  import opened Bytes

  method ReadU8(d: seq<byte>, p: nat) returns (r: Result<byte>, q: nat)
    ensures r.Ok? <==> p + 1 <= |d|
    ensures r.Err? ==> r == Err(EndOfStream)
    ensures r.Ok? ==> r.value == d[p] && q == p + 1
  {
    if p + 1 <= |d| {
      return Ok(d[p]), p + 1;
    }
    return Err(EndOfStream), p;
  }

  method ReadU16(d: seq<byte>, p: nat) returns (r: Result<u16>, q: nat)
    ensures r.Ok? <==> p + 2 <= |d|
    ensures r.Err? ==> r == Err(EndOfStream)
    ensures r.Ok? ==> r.value == U16(d, p) && q == p + 2
  {
    if p + 2 <= |d| {
      return Ok(U16(d, p)), p + 2;
    }
    return Err(EndOfStream), p;
  }

  method ReadI16(d: seq<byte>, p: nat) returns (r: Result<int>, q: nat)
    ensures r.Ok? <==> p + 2 <= |d|
    ensures r.Err? ==> r == Err(EndOfStream)
    ensures r.Ok? ==> r.value == I16(d, p) && q == p + 2
  {
    if p + 2 <= |d| {
      return Ok(I16(d, p)), p + 2;
    }
    return Err(EndOfStream), p;
  }

  method ReadU32(d: seq<byte>, p: nat) returns (r: Result<u32>, q: nat)
    ensures r.Ok? <==> p + 4 <= |d|
    ensures r.Err? ==> r == Err(EndOfStream)
    ensures r.Ok? ==> r.value == U32(d, p) && q == p + 4
  {
    if p + 4 <= |d| {
      return Ok(U32(d, p)), p + 4;
    }
    return Err(EndOfStream), p;
  }

  method ReadI32(d: seq<byte>, p: nat) returns (r: Result<i32>, q: nat)
    ensures r.Ok? <==> p + 4 <= |d|
    ensures r.Err? ==> r == Err(EndOfStream)
    ensures r.Ok? ==> r.value == I32(d, p) && q == p + 4
  {
    if p + 4 <= |d| {
      return Ok(I32(d, p)), p + 4;
    }
    return Err(EndOfStream), p;
  }

  /** BinaryReader.ReadSingle, keeping the IEEE-754 bits of the float as a word. */
  method ReadF32(d: seq<byte>, p: nat) returns (r: Result<u32>, q: nat)
    ensures r.Ok? <==> p + 4 <= |d|
    ensures r.Err? ==> r == Err(EndOfStream)
    ensures r.Ok? ==> r.value == U32(d, p) && q == p + 4
  {
    r, q := ReadU32(d, p);
  }

  /** BinaryReader.ReadBytes: a negative count throws; near the end it returns fewer bytes. */
  method ReadBytes(d: seq<byte>, p: nat, count: int) returns (r: Result<seq<byte>>, q: nat)
    requires p <= |d|
    ensures r.Ok? <==> count >= 0
    ensures r.Err? ==> r == Err("count is negative")
    ensures r.Ok? ==> q == Min(p + count, |d|) && r.value == d[p..q]
  {
    if count < 0 {
      return Err("count is negative"), p;
    }
    q := Min(p + count, |d|);
    r := Ok(d[p..q]);
  }

  /** Skipping a field: the seek of BaseStream.Seek(n, SeekOrigin.Current) or a discarded read. */
  method Skip(d: seq<byte>, p: nat, count: nat) returns (r: Result<()>, q: nat)
    ensures r.Ok? <==> p + count <= |d|
    ensures r.Err? ==> r == Err(EndOfStream)
    ensures r.Ok? ==> q == p + count
  {
    if p + count <= |d| {
      return Ok(()), p + count;
    }
    return Err(EndOfStream), p;
  }

  function Min(a: int, b: int): (m: int)
    ensures m <= a && m <= b && (m == a || m == b)
  {
    if a <= b then a else b
  }
}
