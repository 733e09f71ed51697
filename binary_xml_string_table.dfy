/// BinaryXmlStringTable.cs: the string table of a binary XML file, a block of UTF-16
/// strings that nodes name by their offset in code units.
module BinaryXmlStringTable {
  import opened Outcome
  import opened Bytes
  import opened ByteHelpers
  import Cursor
  import BinaryXmlFileHelpers

  class StringTable {
    /** m_data: the table's bytes; None until Read assigns them, as the C# field is null. */
    var data: Option<seq<byte>>

    constructor ()
      ensures data == None
    {
      data := None;
    }

    /** getData: the string at a code-unit offset of the table, as Lookup gives it. */
    method GetData(index: i32) returns (r: Result<Units>)
      ensures r == Lookup(data, index)
    {
      if index == 0 {
        return Ok([]);
      }
      if data.None? {
        return Err(NullReference);
      }
      r := ByteHelpers.ReadUTF16Z(data.value, BinaryXmlFileHelpers.Doubled(index));
    }

    /**
     * Read: a packed count, then up to that many bytes as the table. A failure leaves the
     * table as it was.
     */
    method Read(d: seq<byte>, p: nat) returns (r: Result<()>, q: nat)
      requires p <= |d|
      modifies this
      ensures r.Ok? <==> Contents(d, p).Ok?
      ensures r.Err? ==> r.error == Contents(d, p).error && data == old(data)
      ensures r.Ok? ==> var (_, start, end) := Contents(d, p).value;
                        q == end && data == Some(d[start..end])
    {
      var count, q1 := BinaryXmlFileHelpers.ReadPackedS32(d, p);
      if count.Err? {
        return Err(count.error), q1;
      }
      var bytes, q2 := Cursor.ReadBytes(d, q1, count.value);
      if bytes.Err? {
        return Err(bytes.error), q2;
      }
      data := Some(bytes.value);
      r, q := Ok(()), q2;
    }
  }

  /**
   * The string at a code-unit offset of a table holding `data`: offset 0 is the empty string
   * without looking at the table; any other offset is read from the bytes at twice the offset,
   * which a table never read throws on.
   */
  function Lookup(data: Option<seq<byte>>, index: i32): (r: Result<Units>)
    ensures index == 0 ==> r == Ok([])
    ensures index != 0 && data.None? ==> r == Err(NullReference)
    ensures data.Some? ==> r == BinaryXmlFileHelpers.ReadTable(data.value, index)
    ensures 0 < index < 0x4000_0000 && data.Some? ==> r == Utf16Z(data.value, 2 * index)
    ensures r.Ok? ==> index == 0 || (data.Some? && Terminated(data.value, BinaryXmlFileHelpers.Doubled(index), r.value))
  {
    if index == 0 then Ok([])
    else if data.None? then Err(NullReference)
    else Utf16Z(data.value, BinaryXmlFileHelpers.Doubled(index))
  }

  /**
   * What Read finds at p: the packed count, the position of the first table byte and the
   * position after the last one, or the exception it throws.
   */
  function Contents(d: seq<byte>, p: nat): (r: Result<(i32, nat, nat)>)
    requires p <= |d|
    ensures r.Err? ==> r.error == EndOfStream || r.error == "count is negative"
    ensures r.Ok? ==> 0 <= r.value.0 && p < r.value.1 <= r.value.2 <= |d|
    ensures r.Ok? ==> r.value.2 == Cursor.Min(r.value.1 + r.value.0, |d|)
    ensures r.Ok? <==> BinaryXmlFileHelpers.Packed(d, p).Ok? && BinaryXmlFileHelpers.Packed(d, p).value.0 >= 0
  {
    var (count, q1) :- BinaryXmlFileHelpers.Packed(d, p);
    if count < 0 then Err("count is negative")
    else Ok((count, q1, Cursor.Min(q1 + count, |d|)))
  }
}
