/// The eight-way compass of the navigation mesh: one bit per direction in a byte
/// of flags, offsets on the block grid, and the 16-bit quantisation of heights.
module NavMeshUtil {
  import opened Outcome
  import Bytes

  /** A byte of direction flags; a set bit means "blocked" in a floor's flags. */
  type Flags = bv8

  const Top: Flags := 0x01
  const TopRight: Flags := 0x02
  const Right: Flags := 0x04
  const BottomRight: Flags := 0x08
  const Bottom: Flags := 0x10
  const BottomLeft: Flags := 0x20
  const Left: Flags := 0x40
  const TopLeft: Flags := 0x80

  /** The directions clockwise from Top; bit i of a flags byte is Ring[i]. */
  const Ring: seq<Flags> := [Top, TopRight, Right, BottomRight, Bottom, BottomLeft, Left, TopLeft]

  datatype Point = Point(x: int, y: int)

  /** One of the eight directions: exactly one bit set. */
  predicate IsDirection(f: Flags)
  {
    f != 0 && f & (f - 1) == 0
  }

  /** A step to one of the eight cells around a cell. */
  predicate IsUnitOffset(p: Point)
  {
    -1 <= p.x <= 1 && -1 <= p.y <= 1 && p != Point(0, 0)
  }

  lemma RingIsDirections(f: Flags)
    ensures IsDirection(f) <==> f in Ring
  {
  }

  function OffsetFromDirectionFlag(flag: Flags): (r: Result<Point>)
    ensures r.Ok? <==> IsDirection(flag)
    ensures r.Ok? ==> IsUnitOffset(r.value)
  {
    RingIsDirections(flag);
    if flag == Top then Ok(Point(0, 1))
    else if flag == TopRight then Ok(Point(1, 1))
    else if flag == Right then Ok(Point(1, 0))
    else if flag == BottomRight then Ok(Point(1, -1))
    else if flag == Bottom then Ok(Point(0, -1))
    else if flag == BottomLeft then Ok(Point(-1, -1))
    else if flag == Left then Ok(Point(-1, 0))
    else if flag == TopLeft then Ok(Point(-1, 1))
    else Err("invalid flag")
  }

  /** Swaps the two nibbles, turning each direction into the opposite one. */
  function GetInverseDirection(flag: Flags): (r: Flags)
  {
    ((flag & 0xF) << 4) | ((flag & 0xF0) >> 4)
  }

  lemma InverseIsInvolution(flag: Flags)
    ensures GetInverseDirection(GetInverseDirection(flag)) == flag
  {
  }

  lemma InversePairs()
    ensures GetInverseDirection(Top) == Bottom && GetInverseDirection(Bottom) == Top
    ensures GetInverseDirection(TopRight) == BottomLeft && GetInverseDirection(BottomLeft) == TopRight
    ensures GetInverseDirection(Right) == Left && GetInverseDirection(Left) == Right
    ensures GetInverseDirection(BottomRight) == TopLeft && GetInverseDirection(TopLeft) == BottomRight
  {
  }

  /** The opposite of a direction steps back to where the direction came from. */
  lemma InverseNegatesOffset(d: Flags)
    requires IsDirection(d)
    ensures IsDirection(GetInverseDirection(d))
    ensures OffsetFromDirectionFlag(GetInverseDirection(d)).value
         == Point(-OffsetFromDirectionFlag(d).value.x, -OffsetFromDirectionFlag(d).value.y)
  {
    RingIsDirections(d);
  }

  /** The inverse of a flags byte blocks exactly the opposites of what it blocks. */
  lemma InverseFlagsBits(flags: Flags, d: Flags)
    requires IsDirection(d)
    ensures (GetInverseDirection(flags) & GetInverseDirection(d) == 0) <==> (flags & d == 0)
  {
    RingIsDirections(d);
  }

  function GetAdjacentDirectionsMask(a: Flags): (r: Flags)
  {
    (a << 1) | (a >> 1) | (a << 7) | (a >> 7)
  }

  predicate IsDirectionAdjacent(a: Flags, b: Flags)
  {
    GetAdjacentDirectionsMask(a) & b != 0
  }

  /** The mask of a direction is its two neighbours on the compass ring. */
  lemma {:induction false} AdjacentMaskIsRingNeighbours(i: nat)
    requires i < 8
    ensures GetAdjacentDirectionsMask(Ring[i]) == Ring[(i + 1) % 8] | Ring[(i + 7) % 8]
    ensures Ring[(i + 1) % 8] != Ring[(i + 7) % 8]
  {
    match i
    case 0 => case 1 => case 2 => case 3 => case 4 => case 5 => case 6 => case 7 =>
  }

  function Manhattan(p: Point, q: Point): nat
  {
    (if p.x < q.x then q.x - p.x else p.x - q.x) + (if p.y < q.y then q.y - p.y else p.y - q.y)
  }

  /**
   * Two directions are adjacent exactly when their offsets are one axis step apart,
   * i.e. they are 45 degrees apart on the compass.
   */
  lemma AdjacentIsOneStepApart(a: Flags, b: Flags)
    requires IsDirection(a) && IsDirection(b)
    ensures IsDirectionAdjacent(a, b)
        <==> Manhattan(OffsetFromDirectionFlag(a).value, OffsetFromDirectionFlag(b).value) == 1
  {
    RingIsDirections(a);
    RingIsDirections(b);
  }

  lemma AdjacentIsSymmetric(a: Flags, b: Flags)
    requires IsDirection(a) && IsDirection(b)
    ensures IsDirectionAdjacent(a, b) == IsDirectionAdjacent(b, a)
  {
    AdjacentIsOneStepApart(a, b);
    AdjacentIsOneStepApart(b, a);
  }

  /** The direction from (x1, y1) to the neighbouring cell (x2, y2). */
  function DetermineDirection(x1: int, y1: int, x2: int, y2: int): (r: Result<Flags>)
    ensures r.Ok? <==> IsUnitOffset(Point(x2 - x1, y2 - y1))
    ensures r.Ok? ==> IsDirection(r.value)
    ensures r.Ok? ==> OffsetFromDirectionFlag(r.value) == Ok(Point(x2 - x1, y2 - y1))
  {
    var dx := x2 - x1;
    var dy := y2 - y1;
    if dx == -1 && dy == -1 then Ok(BottomLeft)
    else if dx == -1 && dy == 0 then Ok(Left)
    else if dx == -1 && dy == 1 then Ok(TopLeft)
    else if dx == 0 && dy == -1 then Ok(Bottom)
    else if dx == 0 && dy == 1 then Ok(Top)
    else if dx == 1 && dy == -1 then Ok(BottomRight)
    else if dx == 1 && dy == 0 then Ok(Right)
    else if dx == 1 && dy == 1 then Ok(TopRight)
    else Err(InvalidOperation)
  }

  lemma DetermineDirectionTranslates(x1: int, y1: int, x2: int, y2: int)
    ensures DetermineDirection(x1, y1, x2, y2) == DetermineDirection(0, 0, x2 - x1, y2 - y1)
  {
  }

  /** DetermineDirection undoes OffsetFromDirectionFlag ... */
  lemma DetermineDirectionOfOffset(d: Flags)
    requires IsDirection(d)
    ensures DetermineDirection(0, 0, OffsetFromDirectionFlag(d).value.x, OffsetFromDirectionFlag(d).value.y) == Ok(d)
  {
    RingIsDirections(d);
  }

  /** ... and OffsetFromDirectionFlag undoes DetermineDirection. */
  lemma OffsetOfDetermineDirection(p: Point)
    requires IsUnitOffset(p)
    ensures OffsetFromDirectionFlag(DetermineDirection(0, 0, p.x, p.y).value) == Ok(p)
  {
  }

  type EncodedHeight = x: nat | x <= 0xFFFF

  /**
   * EncodeHeight: (ushort)((z - minz) * 65535 / (maxz - minz)), the float truncated
   * toward zero. Heights outside [minz, maxz], whose cast to ushort is unspecified,
   * are not part of the model.
   */
  function EncodeHeight(minz: int, maxz: int, z: real): (e: EncodedHeight)
    requires minz < maxz && minz as real <= z <= maxz as real
    ensures e as real <= (z - minz as real) * 65535.0 / (maxz - minz) as real < e as real + 1.0
  {
    var t := (z - minz as real) * 65535.0 / (maxz - minz) as real;
    ScaleBounded(z - minz as real, (maxz - minz) as real);
    t.Floor
  }

  lemma ScaleBounded(a: real, b: real)
    requires 0.0 <= a <= b && b > 0.0
    ensures 0.0 <= a * 65535.0 / b <= 65535.0
  {
    assert a * 65535.0 <= b * 65535.0;
  }

  /**
   * DecodeHeight as written: minz + encz * (maxz - minz) / 65535f, with the difference
   * and the product taken in 32-bit ints, which wrap around.
   */
  function DecodeHeight(minz: int, maxz: int, encz: EncodedHeight): real
  {
    minz as real + Bytes.Wrap32(encz * Bytes.Wrap32(maxz - minz)) as real / 65535.0
  }

  /** DecodeHeight with the product taken wide, as the encoding it inverts means it. */
  function DecodeHeightWide(minz: int, maxz: int, encz: EncodedHeight): real
  {
    minz as real + (encz * (maxz - minz)) as real / 65535.0
  }

  /** A wrapped value of a 32-bit int is the value itself. */
  lemma WrapInRange(x: int)
    requires -0x8000_0000 <= x < 0x8000_0000
    ensures Bytes.Wrap32(x) == x
  {
  }

  /** While the z range spans at most 32768, no product wraps and the two decodings agree. */
  lemma DecodeHeightAgrees(minz: int, maxz: int, encz: EncodedHeight)
    requires -0x8000 <= maxz - minz <= 0x8000
    ensures DecodeHeight(minz, maxz, encz) == DecodeHeightWide(minz, maxz, encz)
  {
    WrapInRange(maxz - minz);
    var d := maxz - minz;
    if d >= 0 {
      assert encz * d <= 0xFFFF * d <= 0xFFFF * 0x8000;
    } else {
      assert encz * d >= 0xFFFF * d >= 0xFFFF * -0x8000;
    }
    WrapInRange(encz * d);
  }

  /**
   * Over the z range [0, 40000] the top code 65535 decodes below zero as written: the
   * product 2621400000 wraps to -1673567296.
   */
  lemma DecodeHeightWraps()
    ensures DecodeHeightWide(0, 40000, 0xFFFF) == 40000.0
    ensures DecodeHeight(0, 40000, 0xFFFF) == -1673567296.0 / 65535.0 < 0.0
  {
    WrapInRange(40000);
    assert Bytes.Wrap32(0xFFFF * 40000) == 0xFFFF * 40000 - 0x1_0000_0000;
  }

  lemma EncodeHeightEnds(minz: int, maxz: int)
    requires minz < maxz
    ensures EncodeHeight(minz, maxz, minz as real) == 0
    ensures EncodeHeight(minz, maxz, maxz as real) == 0xFFFF
  {
    var d := (maxz - minz) as real;
    assert d * 65535.0 / d == 65535.0;
  }

  lemma DecodeHeightEnds(minz: int, maxz: int)
    ensures DecodeHeightWide(minz, maxz, 0) == minz as real
    ensures DecodeHeightWide(minz, maxz, 0xFFFF) == maxz as real
  {
  }

  lemma EncodeHeightMonotone(minz: int, maxz: int, z1: real, z2: real)
    requires minz < maxz && minz as real <= z1 <= z2 <= maxz as real
    ensures EncodeHeight(minz, maxz, z1) <= EncodeHeight(minz, maxz, z2)
  {
    var d := (maxz - minz) as real;
    assert (z1 - minz as real) * 65535.0 <= (z2 - minz as real) * 65535.0;
    DivideMonotone((z1 - minz as real) * 65535.0, (z2 - minz as real) * 65535.0, d);
  }

  lemma DivideMonotone(a: real, b: real, d: real)
    requires a <= b && d > 0.0
    ensures a / d <= b / d
  {
  }

  lemma DecodeHeightMonotone(minz: int, maxz: int, e1: EncodedHeight, e2: EncodedHeight)
    requires minz < maxz && e1 <= e2
    ensures DecodeHeightWide(minz, maxz, e1) <= DecodeHeightWide(minz, maxz, e2)
  {
    assert e1 * (maxz - minz) <= e2 * (maxz - minz);
  }

  /** Decoding an encoded height lands at most one quantisation step below it. */
  lemma QuantisationError(minz: int, maxz: int, z: real)
    requires minz < maxz && minz as real <= z <= maxz as real
    ensures var back := DecodeHeightWide(minz, maxz, EncodeHeight(minz, maxz, z));
            back <= z < back + (maxz - minz) as real / 65535.0
  {
    var d := (maxz - minz) as real;
    var e := EncodeHeight(minz, maxz, z);
    FloorStep(z - minz as real, d, e as real);
    assert (e * (maxz - minz)) as real == e as real * d;
  }

  /** Scaling e <= x * 65535 / d < e + 1 back by d / 65535. */
  lemma FloorStep(x: real, d: real, e: real)
    requires d > 0.0 && e <= x * 65535.0 / d < e + 1.0
    ensures e * d / 65535.0 <= x < e * d / 65535.0 + d / 65535.0
  {
    var t := x * 65535.0 / d;
    assert t * d == x * 65535.0;
    MultiplyLess(t, e + 1.0, d);
    assert (e + 1.0) * d == e * d + d;
    assert x * 65535.0 < e * d + d;
    assert (e * d + d) / 65535.0 == e * d / 65535.0 + d / 65535.0;
  }

  lemma MultiplyLess(a: real, b: real, c: real)
    requires a < b && c > 0.0
    ensures a * c < b * c
  {
  }
}
