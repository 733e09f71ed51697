/// BinaryXmlFileHelpers.cs: the packed integers of the binary XML format, seven bits per
/// byte, least significant group first, a set top bit meaning "more bytes follow"; and the
/// lookup of a string in the string table by its offset in code units.
module BinaryXmlFileHelpers {
  import opened Outcome
  import opened Bytes
  import ByteHelpers

  /** A continuation byte: its top bit says another byte follows. */
  predicate More(b: byte) { b >= 0x80 }

  /** A byte widened to a C# int. */
  function Wide(b: byte): bv32
  {
    Bits(b) as bv32
  }

  /** The seven payload bits of a byte, `num1 & 0x7F`. */
  function Payload(b: byte): bv32
  {
    (Bits(b) & 0x7F) as bv32
  }

  /** `num2 |= (num1 & 0x7F) << num3`: a continuation byte's payload joins the bits gathered. */
  function Gather(acc: bv32, b: byte, shift: bv32): bv32
    requires shift < 32
  {
    acc | (Payload(b) << shift)
  }

  /** `num2 | num1 << num3`: the final byte, all of it, joins the bits gathered. */
  function Last(acc: bv32, b: byte, shift: bv32): bv32
    requires shift < 32
  {
    acc | (Wide(b) << shift)
  }

  /**
   * The rest of ReadPackedS32 from position p, with the bits gathered so far and the
   * shift for the next group. A C# int shift uses the low five bits of its count and
   * keeps the low 32 bits of the result; `shift` is that count modulo 32, which stays
   * exact when the count itself wraps, as 2^32 is a multiple of 32.
   */
  function PackedFrom(d: seq<byte>, p: nat, shift: bv32, acc: bv32): (r: Result<(bv32, nat)>)
    requires shift < 32
    ensures r.Err? <==> forall k :: p <= k < |d| ==> More(d[k])
    ensures r.Err? ==> r.error == EndOfStream
    ensures r.Ok? ==> p < r.value.1 <= |d| && !More(d[r.value.1 - 1])
                      && forall k :: p <= k < r.value.1 - 1 ==> More(d[k])
    decreases |d| - p
  {
    if p >= |d| then Err(EndOfStream)
    else if More(d[p]) then PackedFrom(d, p + 1, (shift + 7) & 31, Gather(acc, d[p], shift))
    else Ok((Last(acc, d[p], shift), p + 1))
  }

  /** ReadPackedS32 at position p: the int and the position after its last byte. */
  function Packed(d: seq<byte>, p: nat): (r: Result<(i32, nat)>)
    ensures r.Ok? <==> PackedFrom(d, p, 0, 0).Ok?
  {
    var (w, q) :- PackedFrom(d, p, 0, 0);
    Ok((Signed32(w as int), q))
  }

  /** A byte below 128 is the whole number, and takes one byte. */
  lemma {:induction false} PackedOneByte(d: seq<byte>, p: nat)
    requires p < |d| && d[p] < 0x80
    ensures Packed(d, p) == Ok((d[p], p + 1))
  {
    var w: bv32 := 0 | (Wide(d[p]) << 0);
    assert w == Wide(d[p]);
    assert w as int == d[p];
  }

  /** ReadPackedS32: the loop gathering seven bits per continuation byte. */
  method ReadPackedS32(d: seq<byte>, p: nat) returns (r: Result<i32>, q: nat)
    ensures r.Ok? <==> Packed(d, p).Ok?
    ensures r.Err? ==> r.error == EndOfStream
    ensures r.Ok? ==> (r.value, q) == Packed(d, p).value
  {
    if p >= |d| {
      return Err(EndOfStream), p;
    }
    var num1 := d[p];
    q := p + 1;
    var num2: bv32 := 0;
    var num3: bv32 := 0;
    while num1 >= 128
      invariant p < q <= |d| && num1 == d[q - 1] && num3 < 32
      invariant PackedFrom(d, p, 0, 0) == PackedFrom(d, q - 1, num3, num2)
      decreases |d| - q
    {
      PackedFromStep(d, q - 1, num3, num2);
      num2 := Gather(num2, num1, num3);
      num3 := (num3 + 7) & 31;
      if q >= |d| {
        return Err(EndOfStream), q;
      }
      num1 := d[q];
      q := q + 1;
    }
    r := Ok(Signed32(Last(num2, num1, num3) as int));
  }

  /** Reading on past a continuation byte: its payload joins the bits at the current shift. */
  lemma {:induction false} PackedFromStep(d: seq<byte>, p: nat, shift: bv32, acc: bv32)
    requires p < |d| && More(d[p]) && shift < 32
    ensures PackedFrom(d, p, shift, acc) == PackedFrom(d, p + 1, (shift + 7) & 31, Gather(acc, d[p], shift))
  {
  }

  /** The byte with the bits of x. */
  function Byte(x: bv8): (b: byte)
    ensures Bits(b) == x
  {
    ValueBits(x);
    x as int
  }

  /** The byte ending a packed number: the last group of w, top bit clear. */
  function Final(w: bv32): (b: byte)
    requires w < 0x80
    ensures !More(b) && Wide(b) == w
  {
    var x := w as bv8;
    assert x < 0x80;
    Byte(x)
  }

  /** A continuation byte: the low seven bits of w with the top bit set. */
  function Cont(w: bv32): (b: byte)
    ensures More(b) && Payload(b) == w & 0x7F
  {
    var x := ((w & 0x7F) | 0x80) as bv8;
    assert x >= 0x80 && (x & 0x7F) as bv32 == w & 0x7F;
    Byte(x)
  }

  /** The bytes that write w: seven bits at a time, least significant first. */
  function Leb(w: bv32): (e: seq<byte>)
    ensures 1 <= |e| <= 5
    ensures w < 0x1000_0000 ==> |e| <= 4
    ensures w < 0x20_0000 ==> |e| <= 3
    ensures w < 0x4000 ==> |e| <= 2
    ensures w < 0x80 ==> |e| == 1
    decreases w
  {
    if w < 0x80 then [Final(w)]
    else
      LebShrinks(w);
      [Cont(w)] + Leb(w >> 7)
  }

  lemma LebShrinks(w: bv32)
    requires w >= 0x80
    ensures w >> 7 < w
    ensures w < 0x1000_0000 ==> w >> 7 < 0x20_0000
    ensures w < 0x20_0000 ==> w >> 7 < 0x4000
    ensures w < 0x4000 ==> w >> 7 < 0x80
    ensures w >> 7 < 0x200_0000
  {
  }

  /** A number of eight bits or more: a continuation byte, then the rest of the number. */
  lemma LebCons(w: bv32)
    requires w >= 0x80
    ensures Leb(w) == [Cont(w)] + Leb(w >> 7)
  {
  }

  /** The bits of w below position s. */
  function Low(w: bv32, s: bv32): bv32
    requires s < 32
  {
    w & ((1 << s) - 1)
  }

  /** The bits below s and the seven above them make the bits below s + 7. */
  lemma LowGrows(full: bv32, s: bv32)
    requires s == 0 || s == 7 || s == 14 || s == 21
    ensures Low(full, s) | (((full >> s) & 0x7F) << s) == Low(full, s + 7)
    ensures (full >> s) >> 7 == full >> (s + 7)
  {
  }

  /** The bits below s and the rest above them make the whole word. */
  lemma LowCompletes(full: bv32, s: bv32)
    requires s == 0 || s == 7 || s == 14 || s == 21 || s == 28
    ensures Low(full, s) | ((full >> s) << s) == full
  {
  }

  /** The top group of a word, at shift 28, has only four bits. */
  lemma TopGroup(full: bv32)
    ensures full >> 28 < 0x80
  {
  }

  /** A continuation byte carrying the group at s extends the bits below s to those below s + 7. */
  lemma GroupStep(full: bv32, s: bv32)
    requires s == 0 || s == 7 || s == 14 || s == 21
    ensures Gather(Low(full, s), Cont(full >> s), s) == Low(full, s + 7)
    ensures (full >> s) >> 7 == full >> (s + 7)
  {
    LowGrows(full, s);
  }

  /** A final byte carrying everything above s completes the word. */
  lemma GroupLast(full: bv32, s: bv32)
    requires s == 0 || s == 7 || s == 14 || s == 21 || s == 28
    requires full >> s < 0x80
    ensures Last(Low(full, s), Final(full >> s), s) == full
  {
    LowCompletes(full, s);
  }

  /** A packed number's bytes: continuation bytes and then one final byte. */
  predicate WellFormed(e: seq<byte>)
  {
    |e| >= 1 && !More(e[|e| - 1]) && forall k :: 0 <= k < |e| - 1 ==> More(e[k])
  }

  /** The word the reading gathers from the bytes e, starting from acc at shift. */
  function Fold(acc: bv32, e: seq<byte>, shift: bv32): bv32
    requires shift < 32 && |e| >= 1
    decreases |e|
  {
    if |e| == 1 then Last(acc, e[0], shift)
    else Fold(Gather(acc, e[0], shift), e[1..], (shift + 7) & 31)
  }

  /** Where a well-formed run stands, the reading takes exactly its bytes and gathers their fold. */
  lemma {:induction false} ReadsRun(d: seq<byte>, p: nat, shift: bv32, acc: bv32, e: seq<byte>)
    requires shift < 32 && WellFormed(e) && StandsAt(d, p, e)
    ensures PackedFrom(d, p, shift, acc) == Ok((Fold(acc, e, shift), p + |e|))
    decreases |e|
  {
    assert ByteAt(d, p, 0) == e[0];
    if |e| > 1 {
      assert More(e[0]);
      StandsPart(d, p, e, 1, |e|);
      var rest := e[1..];
      assert forall k :: 0 <= k < |rest| - 1 ==> rest[k] == e[k + 1];
      assert rest[|rest| - 1] == e[|e| - 1];
      ReadsRun(d, p + 1, (shift + 7) & 31, Gather(acc, e[0], shift), rest);
    }
  }

  /** Leb writes a well-formed run. */
  lemma {:induction false} LebWellFormed(w: bv32)
    ensures WellFormed(Leb(w))
    decreases w
  {
    if w >= 0x80 {
      LebCons(w);
      LebShrinks(w);
      LebWellFormed(w >> 7);
      var rest := Leb(w >> 7);
      assert forall k :: 1 <= k < |Leb(w)| ==> Leb(w)[k] == rest[k - 1];
    }
  }

  /**
   * The fold over the groups of full from shift s on gives back the whole word, one
   * lemma for each of the five places a group can start.
   */
  lemma Folds28(full: bv32)
    ensures Fold(Low(full, 28), Leb(full >> 28), 28) == full
  {
    TopGroup(full);
    GroupLast(full, 28);
  }

  lemma Folds21(full: bv32)
    ensures Fold(Low(full, 21), Leb(full >> 21), 21) == full
  {
    if full >> 21 < 0x80 {
      GroupLast(full, 21);
    } else {
      LebCons(full >> 21);
      GroupStep(full, 21);
      Folds28(full);
    }
  }

  lemma Folds14(full: bv32)
    ensures Fold(Low(full, 14), Leb(full >> 14), 14) == full
  {
    if full >> 14 < 0x80 {
      GroupLast(full, 14);
    } else {
      LebCons(full >> 14);
      GroupStep(full, 14);
      Folds21(full);
    }
  }

  lemma Folds7(full: bv32)
    ensures Fold(Low(full, 7), Leb(full >> 7), 7) == full
  {
    if full >> 7 < 0x80 {
      GroupLast(full, 7);
    } else {
      LebCons(full >> 7);
      GroupStep(full, 7);
      Folds14(full);
    }
  }

  lemma Folds0(full: bv32)
    ensures Fold(0, Leb(full), 0) == full
  {
    assert full >> 0 == full && Low(full, 0) == 0;
    if full < 0x80 {
      GroupLast(full, 0);
    } else {
      LebCons(full);
      GroupStep(full, 0);
      Folds7(full);
    }
  }

  /**
   * Reading the packed form of any 32-bit word gives back the C# int with those bits,
   * after exactly the bytes written.
   */
  lemma {:induction false} PackedRoundTrip(d: seq<byte>, p: nat, w: bv32)
    requires StandsAt(d, p, Leb(w))
    ensures Packed(d, p) == Ok((Signed32(w as int), p + |Leb(w)|))
  {
    LebWellFormed(w);
    ReadsRun(d, p, 0, 0, Leb(w));
    Folds0(w);
  }

  /**
   * `2 * offset` in C#'s unchecked int arithmetic: the product wraps to 32 bits, so an
   * offset of 2^30 or more (or a negative one) can land anywhere.
   */
  function Doubled(offset: i32): (o: i32)
    ensures 0 <= offset < 0x4000_0000 ==> o == 2 * offset
  {
    Signed32((2 * offset) % 0x1_0000_0000)
  }

  /** ReadTable: offset 0 is the empty string; any other offset counts code units into the table. */
  function ReadTable(data: seq<byte>, offset: i32): (r: Result<ByteHelpers.Units>)
    ensures offset == 0 ==> r == Ok([])
    ensures 0 < offset < 0x4000_0000 ==> r == ByteHelpers.Utf16Z(data, 2 * offset)
  {
    if offset == 0 then Ok([]) else ByteHelpers.Utf16Z(data, Doubled(offset))
  }
}
