/// objects.lst: the vegetation placements of a level, one 16-byte record per object after a
/// 4-byte header. Positions are stored in map units scaled by 32768 / map width.
module ObjectsLstLoader {
  import opened Outcome
  import opened Bytes
  import Cursor
  import CsMath
  import Geometry

  const BadHeader := "objects.lst: expected 0x10 header"

  /** The header int every objects.lst starts with. */
  const HeaderTag := 0x10

  /** The size of one record: x, y, z (u16), object id, an unknown byte, scale (float), heading (int). */
  const RecordSize := 16

  /**
   * ObjectsLstItem: the stored coordinates (the item's position is Position of them),
   * object id, the scale's float bits, heading in degrees.
   */
  datatype Item = Item(x: u16, y: u16, z: u16, objectId: byte, scale: u32, heading: int)

  /** One record as it stands in the file. */
  datatype Record = Record(x: u16, y: u16, z: u16, objectId: byte, unknown: byte, scale: u32, heading: i32)

  /** `heading * 360 / 255` on C# ints: a wrapping product, then a truncating division. */
  function Degrees(heading: i32): int
  {
    CsMath.Div(Wrap32(heading * 360), 255)
  }

  /**
   * A stored coordinate divided by `32768f / mapWidth`, taken exactly; that is the
   * coordinate times mapWidth / 32768.
   */
  function Scaled(c: u16, mapWidth: int): real
    requires mapWidth > 0
  {
    c as real / (32768.0 / mapWidth as real)
  }

  /** ObjectsLstItem.Position: `new Vector3(xPos / magic, yPos / magic, zPos / magic)`. */
  function Position(it: Item, mapWidth: int): Geometry.Vec3
    requires mapWidth > 0
  {
    Geometry.Vec3(Scaled(it.x, mapWidth), Scaled(it.y, mapWidth), Scaled(it.z, mapWidth))
  }

  /** The map's corner opposite the origin, 32768 stored units, is at (mapWidth, mapWidth, mapWidth). */
  lemma PositionSpansMap(it: Item, mapWidth: int)
    requires mapWidth > 0 && it.x == 32768 && it.y == 32768 && it.z == 32768
    ensures Position(it, mapWidth) == Geometry.Vec3(mapWidth as real, mapWidth as real, mapWidth as real)
  {
  }

  /** The item the loader makes of one record. */
  function ItemOf(rec: Record): (it: Item)
  {
    Item(rec.x, rec.y, rec.z, rec.objectId, rec.scale, Degrees(rec.heading))
  }

  /** The record standing at position p. */
  function RecordAt(d: seq<byte>, p: nat): Record
    requires p + RecordSize <= |d|
  {
    Record(U16(d, p), U16(d, p + 2), U16(d, p + 4), d[p + 6], d[p + 7], U32(d, p + 8), I32(d, p + 12))
  }

  /** The record loop from position p: records until the end, a partial record failing. */
  function Records(d: seq<byte>, p: nat): Result<seq<Item>>
    decreases |d| - p
  {
    if p >= |d| then Ok([])
    else if p + RecordSize > |d| then Err(EndOfStream)
    else
      match Records(d, p + RecordSize)
      case Err(e) => Err(e)
      case Ok(items) => Ok([ItemOf(RecordAt(d, p))] + items)
  }

  /** Load(Stream, mapWidth, mapHeight): the argument checks, the header, then the records. */
  function Objects(d: seq<byte>, mapWidth: int, mapHeight: int): Result<seq<Item>>
  {
    if mapWidth <= 0 || mapHeight <= 0 then Err(ArgumentOutOfRange)
    else if mapWidth != mapHeight then Err(InvalidOperation)
    else if |d| < 4 then Err(EndOfStream)
    else if I32(d, 0) != HeaderTag then Err(BadHeader)
    else Records(d, 4)
  }

  /** Prefix a list to a result's list, keeping an error. */
  function Prepended(items: seq<Item>, r: Result<seq<Item>>): Result<seq<Item>>
  {
    match r
    case Err(e) => Err(e)
    case Ok(rest) => Ok(items + rest)
  }

  /** Load: the record loop appends one item per record to the result list. */
  method Load(d: seq<byte>, mapWidth: int, mapHeight: int) returns (r: Result<seq<Item>>)
    ensures r == Objects(d, mapWidth, mapHeight)
  {
    if mapWidth <= 0 || mapHeight <= 0 {
      return Err(ArgumentOutOfRange);
    }
    if mapWidth != mapHeight {
      return Err(InvalidOperation);
    }
    var header, p := Cursor.ReadI32(d, 0);
    if header.Err? {
      return Err(header.error);
    }
    if header.value != HeaderTag {
      return Err(BadHeader);
    }
    r := ReadRecords(d, p);
  }

  /** The while-not-at-end loop of Load. */
  method ReadRecords(d: seq<byte>, start: nat) returns (r: Result<seq<Item>>)
    requires start <= |d|
    ensures r == Records(d, start)
  {
    var result: seq<Item> := [];
    var p := start;
    PrependedNothing(Records(d, p));
    while p < |d|
      invariant start <= p <= |d|
      invariant Records(d, start) == Prepended(result, Records(d, p))
      decreases |d| - p
    {
      var item, q := ReadRecord(d, p);
      if item.Err? {
        assert Records(d, p) == Err(EndOfStream);
        return Err(item.error);
      }
      RecordsStep(d, p, result);
      result := result + [item.value];
      p := q;
    }
    assert Records(d, p) == Ok([]) && result + [] == result;
    r := Ok(result);
  }

  /** One turn of the loop: the record at p moves from the rest to the result. */
  lemma RecordsStep(d: seq<byte>, p: nat, result: seq<Item>)
    requires p + RecordSize <= |d|
    ensures Prepended(result, Records(d, p)) == Prepended(result + [ItemOf(RecordAt(d, p))], Records(d, p + RecordSize))
  {
    var rest := Records(d, p + RecordSize);
    if rest.Ok? {
      assert result + ([ItemOf(RecordAt(d, p))] + rest.value) == result + [ItemOf(RecordAt(d, p))] + rest.value;
    }
  }

  /** The seven reads of one record, in file order; the first short read throws. */
  method ReadRecord(d: seq<byte>, p: nat) returns (r: Result<Item>, q: nat)
    requires p <= |d|
    ensures p + RecordSize <= |d| ==> r == Ok(ItemOf(RecordAt(d, p))) && q == p + RecordSize
    ensures p + RecordSize > |d| ==> r == Err(EndOfStream)
  {
    var x, p1 := Cursor.ReadU16(d, p);
    var y, p2 := Cursor.ReadU16(d, p1);
    var z, p3 := Cursor.ReadU16(d, p2);
    var objectId, p4 := Cursor.ReadU8(d, p3);
    var unknown, p5 := Cursor.ReadU8(d, p4);
    var scale, p6 := Cursor.ReadF32(d, p5);
    var heading, p7 := Cursor.ReadI32(d, p6);
    if x.Err? || y.Err? || z.Err? || objectId.Err? || unknown.Err? || scale.Err? || heading.Err? {
      return Err(EndOfStream), p;
    }
    var rec := Record(x.value, y.value, z.value, objectId.value, unknown.value, scale.value, heading.value);
    assert rec == RecordAt(d, p);
    return Ok(ItemOf(rec)), p7;
  }

  // ---------------------------------------------------------------------------
  // Properties

  /** The loop succeeds iff the records fill the rest exactly; then there is one item per record, in file order. */
  lemma RecordsInOrder(d: seq<byte>, p: nat)
    requires p <= |d|
    ensures Records(d, p).Ok? <==> (|d| - p) % RecordSize == 0
    ensures Records(d, p).Err? ==> Records(d, p).error == EndOfStream
    ensures Records(d, p).Ok? ==>
              var items := Records(d, p).value;
              |items| == (|d| - p) / RecordSize
              && forall k :: 0 <= k < |items| ==> items[k] == ItemOf(RecordAt(d, p + RecordSize * k))
  {
    RecordsCount(d, p);
    if Records(d, p).Ok? {
      RecordsAt(d, p);
    }
  }

  lemma {:induction false} RecordsCount(d: seq<byte>, p: nat)
    requires p <= |d|
    ensures Records(d, p).Ok? <==> (|d| - p) % RecordSize == 0
    ensures Records(d, p).Err? ==> Records(d, p).error == EndOfStream
    ensures Records(d, p).Ok? ==> |Records(d, p).value| == (|d| - p) / RecordSize
    decreases |d| - p
  {
    if p < |d| && p + RecordSize <= |d| {
      RecordsCount(d, p + RecordSize);
      assert (|d| - p) % RecordSize == (|d| - (p + RecordSize)) % RecordSize;
    }
  }

  /** Item k of `items` is the item of the record k places after position p. */
  predicate ItemsAt(d: seq<byte>, p: nat, items: seq<Item>)
  {
    p + RecordSize * |items| <= |d|
    && forall k :: 0 <= k < |items| ==> items[k] == ItemOf(RecordAt(d, p + RecordSize * k))
  }

  lemma {:induction false} RecordsAt(d: seq<byte>, p: nat)
    requires p <= |d| && Records(d, p).Ok?
    ensures ItemsAt(d, p, Records(d, p).value)
    decreases |d| - p
  {
    if p < |d| {
      RecordsAt(d, p + RecordSize);
      ItemsStep(d, p, Records(d, p + RecordSize).value);
    }
  }

  lemma ItemsStep(d: seq<byte>, p: nat, rest: seq<Item>)
    requires p + RecordSize <= |d| && ItemsAt(d, p + RecordSize, rest)
    ensures ItemsAt(d, p, [ItemOf(RecordAt(d, p))] + rest)
  {
    var items := [ItemOf(RecordAt(d, p))] + rest;
    forall k | 0 < k < |items|
      ensures items[k] == ItemOf(RecordAt(d, p + RecordSize * k))
    {
      assert items[k] == rest[k - 1];
      assert p + RecordSize + RecordSize * (k - 1) == p + RecordSize * k;
    }
  }

  lemma PrependedNothing(r: Result<seq<Item>>)
    ensures Prepended([], r) == r
  {
    if r.Ok? {
      assert [] + r.value == r.value;
    }
  }

  /** The checks of Load, in source order: arguments, then header. */
  lemma LoadChecks(d: seq<byte>, mapWidth: int, mapHeight: int)
    ensures (mapWidth <= 0 || mapHeight <= 0) ==> Objects(d, mapWidth, mapHeight) == Err(ArgumentOutOfRange)
    ensures mapWidth > 0 && mapHeight > 0 && mapWidth != mapHeight ==>
              Objects(d, mapWidth, mapHeight) == Err(InvalidOperation)
    ensures Objects(d, mapWidth, mapHeight).Ok? ==>
              mapWidth == mapHeight > 0 && |d| >= 4 && I32(d, 0) == HeaderTag && (|d| - 4) % RecordSize == 0
  {
    if Objects(d, mapWidth, mapHeight).Ok? {
      RecordsInOrder(d, 4);
    }
  }

  /** The heading of a stored byte angle 0..255 is its angle in whole degrees, 0..360, rounded down. */
  lemma DegreesOfByteAngle(heading: i32)
    requires 0 <= heading <= 255
    ensures Degrees(heading) == heading * 360 / 255
    ensures 0 <= Degrees(heading) <= 360
    ensures heading == 255 ==> Degrees(heading) == 360
  {
    assert Wrap32(heading * 360) == heading * 360;
    CsMath.NonNegativeAgrees(heading * 360, 255);
  }

  /** The product wraps for large headings: 5965233 * 360 overflows a C# int. */
  lemma DegreesWrap()
    ensures Degrees(5965233) == CsMath.Div(2147483880 - 0x1_0000_0000, 255)
    ensures Degrees(5965233) < 0
  {
    assert 5965233 * 360 == 2147483880;
  }

  // ---------------------------------------------------------------------------
  // The record layout, written out

  /** The 16 bytes of a record. */
  function Encode(rec: Record): (s: seq<byte>)
    ensures |s| == RecordSize
  {
    LE16(rec.x) + LE16(rec.y) + LE16(rec.z) + [rec.objectId, rec.unknown] + LE32(rec.scale) + LEI32(rec.heading)
  }

  function EncodeAll(recs: seq<Record>): (s: seq<byte>)
    ensures |s| == RecordSize * |recs|
  {
    if recs == [] then [] else Encode(recs[0]) + EncodeAll(recs[1..])
  }

  /** A record written anywhere reads back at its position. */
  lemma RecordReadsBack(a: seq<byte>, rec: Record, b: seq<byte>)
    ensures RecordAt(a + Encode(rec) + b, |a|) == rec
  {
    var d := a + Encode(rec) + b;
    var p := |a|;
    var e := Encode(rec);
    assert d[p..p + RecordSize] == e;
    assert d[p..p + 2] == e[0..2] == LE16(rec.x);
    assert d[p + 2..p + 4] == e[2..4] == LE16(rec.y);
    assert d[p + 4..p + 6] == e[4..6] == LE16(rec.z);
    assert d[p + 6] == e[6] && d[p + 7] == e[7];
    assert d[p + 8..p + 12] == e[8..12] == LE32(rec.scale);
    assert d[p + 12..p + 16] == e[12..16] == LEI32(rec.heading);
    U16Encoded(d, p, rec.x);
    U16Encoded(d, p + 2, rec.y);
    U16Encoded(d, p + 4, rec.z);
    U32Encoded(d, p + 8, rec.scale);
    I32Encoded(d, p + 12, rec.heading);
  }

  /** The items of a list of records, in order. */
  function ItemsOf(recs: seq<Record>): (items: seq<Item>)
    ensures |items| == |recs| && forall k :: 0 <= k < |recs| ==> items[k] == ItemOf(recs[k])
  {
    seq(|recs|, k requires 0 <= k < |recs| => ItemOf(recs[k]))
  }

  /** Records written after any prefix load back as their items, in order. */
  lemma {:induction false} RecordsOfEncoded(pre: seq<byte>, recs: seq<Record>)
    ensures Records(pre + EncodeAll(recs), |pre|) == Ok(ItemsOf(recs))
    decreases |recs|
  {
    if recs != [] {
      var d := pre + EncodeAll(recs);
      var pre' := pre + Encode(recs[0]);
      assert d == pre' + EncodeAll(recs[1..]);
      RecordsOfEncoded(pre', recs[1..]);
      RecordReadsBack(pre, recs[0], EncodeAll(recs[1..]));
      assert d == pre + Encode(recs[0]) + EncodeAll(recs[1..]);
      assert ItemsOf(recs) == [ItemOf(recs[0])] + ItemsOf(recs[1..]);
    }
  }

  /** A file made of the header and some records loads back as their items, in file order. */
  lemma LoadEncoded(recs: seq<Record>, mapWidth: int)
    requires mapWidth > 0
    ensures Objects(LEI32(HeaderTag) + EncodeAll(recs), mapWidth, mapWidth) == Ok(ItemsOf(recs))
  {
    var d := LEI32(HeaderTag) + EncodeAll(recs);
    I32At([], HeaderTag, EncodeAll(recs));
    assert [] + LEI32(HeaderTag) + EncodeAll(recs) == d;
    RecordsOfEncoded(LEI32(HeaderTag), recs);
  }
}
