/// ReadUTF16Z (ByteHelpers.cs): a zero-terminated little-endian UTF-16 string read out of
/// a byte array. A C# char is a UTF-16 code unit, so the string is kept as its units.
module ByteHelpers {
  import opened Outcome
  import opened Bytes

  /** The code units of a UTF-16 string, as a C# string holds them. */
  type Units = seq<u16>

  /**
   * s is what stands at offset: unit k is the pair of bytes at offset + 2k, none of
   * them the pair 0, 0, and the pair after them is 0, 0.
   */
  predicate Terminated(d: seq<byte>, offset: int, s: Units)
  {
    && 0 <= offset && offset + 2 * |s| + 2 <= |d|
    && d[offset + 2 * |s|] == 0 && d[offset + 2 * |s| + 1] == 0
    && forall k :: 0 <= k < |s| ==> s[k] != 0 && s[k] == U16(d, offset + 2 * k)
  }

  /**
   * The string at offset: the units up to the first aligned pair of zero bytes. Indexing
   * past either end of the array throws before a terminator is found.
   */
  function Utf16Z(d: seq<byte>, offset: int): (r: Result<Units>)
    ensures r.Err? ==> r.error == IndexOutOfRange
    ensures r.Ok? ==> Terminated(d, offset, r.value)
    decreases |d| - offset
  {
    if offset < 0 || offset + 2 > |d| then Err(IndexOutOfRange)
    else if d[offset] == 0 && d[offset + 1] == 0 then Ok([])
    else
      var rest :- Utf16Z(d, offset + 2);
      Ok([U16(d, offset)] + rest)
  }

  /** A terminated string is the one read: the reading succeeds exactly when a terminator stands in range. */
  lemma {:induction false} Utf16ZUnique(d: seq<byte>, offset: int, s: Units)
    requires Terminated(d, offset, s)
    ensures Utf16Z(d, offset) == Ok(s)
    decreases |s|
  {
    if s != [] {
      assert s[0] == U16(d, offset);
      var s' := s[1..];
      assert forall k :: 0 <= k < |s'| ==> s'[k] == s[k + 1] && offset + 2 + 2 * k == offset + 2 * (k + 1);
      assert Terminated(d, offset + 2, s');
      Utf16ZUnique(d, offset + 2, s');
      assert s == [s[0]] + s';
    }
  }

  /** The string in front of the rest read from where it ends. */
  function Before(s: Units, r: Result<Units>): Result<Units>
  {
    if r.Ok? then Ok(s + r.value) else r
  }

  /** ReadUTF16Z: the loop over aligned pairs, appending each unit while the pair is not 0, 0. */
  method ReadUTF16Z(data: seq<byte>, offset: int) returns (r: Result<Units>)
    ensures r == Utf16Z(data, offset)
  {
    var sb: Units := [];
    var i := offset;
    ghost var whole := Utf16Z(data, offset);
    if whole.Ok? {
      assert [] + whole.value == whole.value;
    }
    while true
      invariant i == offset + 2 * |sb|
      invariant Utf16Z(data, offset) == Before(sb, Utf16Z(data, i))
      decreases |data| - i
    {
      if i < 0 || i >= |data| {
        return Err(IndexOutOfRange);
      }
      if data[i] == 0 {
        if i + 1 >= |data| {
          return Err(IndexOutOfRange);
        }
        if data[i + 1] == 0 {
          break;
        }
      }
      if i + 1 >= |data| {
        return Err(IndexOutOfRange);
      }
      var rest := Utf16Z(data, i + 2);
      if rest.Ok? {
        assert sb + ([U16(data, i)] + rest.value) == (sb + [U16(data, i)]) + rest.value;
      }
      sb := sb + [U16(data, i)];
      i := i + 2;
    }
    assert sb + [] == sb;
    r := Ok(sb);
  }
}
