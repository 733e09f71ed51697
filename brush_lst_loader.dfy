/// brush.lst: the static meshes ("brushes") of a level. A "CRY" signature and a header, a
/// list of titles that is skipped, the mesh infos (a file name and a bounding box each), then
/// the placements (a mesh index, a 3x4 matrix and an event decoration each).
module BrushLstLoader {
  import opened Outcome
  import opened Bytes
  import Cursor
  import Ascii
  import PakUtil
  import Util
  import Float32
  import Repeated

  const WrongSignature := "Wrong signature"
  const UnexpectedBlockSize := "unexpected block size"

  /** The block sizes the loader accepts: a placement is that many ints long. */
  const MinBlockSize := 17
  const MaxBlockSize := 19
  /** The event decorations m_eventUsage tracks: none, christmas, halloween, braxcafe, valentine. */
  const EventKinds := 5
  /** One mesh info: a skipped int, a 128-byte name, a skipped int, six floats. */
  const InfoSize := 160
  const NameSize := 128
  /** One placement up to its block-size-dependent tail. */
  const EntrySize := 100
  /** After the signature and dw1: meshDataBlockSz, then the title count. */
  const BlockSizeAt := 7
  const TitlesAt := 11

  /** The twelve floats of a placement's 3x4 matrix, row by row. */
  type Cells = s: seq<u32> | |s| == 12 witness [0, 0, 0, 0, 0, 0, 0, 0, 0, 0, 0, 0]

  /** The sixteen floats of a Matrix, M11 to M44, row by row. */
  type MatrixCells = s: seq<u32> | |s| == 16 witness [0, 0, 0, 0, 0, 0, 0, 0, 0, 0, 0, 0, 0, 0, 0, 0]

  /** BrushInfo: its index in the info list, its normalised file name, its bounding box. */
  datatype BrushInfo = BrushInfo(brushInfoIndex: int, filename: string, min: Float32.Vec3Bits, max: Float32.Vec3Bits)

  /**
   * BrushEntry: its index in the placement list, the info it places, its position, its
   * rotation as the 16 cells of a Matrix, row by row, and its event decoration.
   */
  datatype BrushEntry = BrushEntry(entryIdx: int, meshIdx: int, position: Float32.Vec3Bits, rotation: MatrixCells, eventType: byte)

  /** A mesh info as it stands in the file: the 128 bytes of its name and its bounding box. */
  datatype InfoRecord = InfoRecord(name: seq<byte>, min: Float32.Vec3Bits, max: Float32.Vec3Bits)

  /** A placement as it stands in the file: its index, mesh index, matrix and raw event int. */
  datatype Placement = Placement(index: int, meshIdx: int, cells: Cells, event: i32)

  /** What a successful load leaves: the infos and the placements read, in file order. */
  datatype Contents = Contents(infos: seq<BrushInfo>, placements: seq<Placement>)

  /** `Read(signature, 0, 3)` into a zeroed buffer: a stream shorter than 3 bytes leaves zeros. */
  function SignatureBytes(d: seq<byte>): (sig: seq<byte>)
    ensures |sig| == 3
  {
    seq(3, k requires 0 <= k < 3 => if k < |d| then d[k] else 0)
  }

  /** "CRY". */
  predicate IsCry(sig: seq<byte>)
  {
    sig == [0x43, 0x52, 0x59]
  }

  /**
   * The file name of a 128-byte name field: decoded as UTF-8, white space trimmed at both
   * ends, then NULs trimmed at both ends, then lower-cased with '\\' turned into '/'.
   */
  function InfoName(bs: seq<byte>): string
  {
    Util.NormalizeMeshFilename(Ascii.TrimEndChars(Ascii.TrimStartChars(Ascii.Trim(PakUtil.Utf8Text(bs)), {'\0'}), {'\0'}))
  }

  /** The mesh info at position p. */
  function InfoAt(d: seq<byte>, p: nat): InfoRecord
    requires p + InfoSize <= |d|
  {
    InfoRecord(d[p + 4..p + 4 + NameSize],
               Float32.Vec3Bits(U32(d, p + 136), U32(d, p + 140), U32(d, p + 144)),
               Float32.Vec3Bits(U32(d, p + 148), U32(d, p + 152), U32(d, p + 156)))
  }

  /** The BrushInfo the loader makes of the k-th mesh info. */
  function InfoOf(rec: InfoRecord, k: int): BrushInfo
  {
    BrushInfo(k, InfoName(rec.name), rec.min, rec.max)
  }

  /** The info list: info k made of the k-th record, carrying index k. */
  function InfosOf(recs: seq<InfoRecord>): (infos: seq<BrushInfo>)
    ensures |infos| == |recs|
  {
    seq(|recs|, k requires 0 <= k < |recs| => InfoOf(recs[k], k))
  }

  /** The matrix of the placement at position p: twelve floats after 24 bytes. */
  function CellsAt(d: seq<byte>, p: nat): Cells
    requires p + EntrySize <= |d|
  {
    seq(12, j requires 0 <= j < 12 => U32(d, p + 24 + 4 * j))
  }

  /** The placement at position p, the i-th of the list. */
  function PlacementAt(d: seq<byte>, p: nat, i: int): Placement
    requires p + EntrySize <= |d|
  {
    Placement(i, I32(d, p + 8), CellsAt(d, p), I32(d, p + 88))
  }

  /** The position of a placement: the last column of its 3x4 matrix. */
  function Position(cells: Cells): Float32.Vec3Bits
  {
    Float32.Vec3Bits(cells[3], cells[7], cells[11])
  }

  /** `new Matrix()` with the 3x3 block of the placement's matrix copied in and M44 = 1. */
  function Rotation(cells: Cells): MatrixCells
  {
    [cells[0], cells[1], cells[2], 0,
     cells[4], cells[5], cells[6], 0,
     cells[8], cells[9], cells[10], 0,
     0, 0, 0, Float32.One]
  }

  /** Whether the loader records an event int: only 0 to 4 are known decorations. */
  predicate KnownEvent(event: int)
  {
    0 <= event < EventKinds
  }

  /** The BrushEntry the loader makes of a placement; an unknown event leaves eventType 0. */
  function EntryOf(pl: Placement): BrushEntry
  {
    BrushEntry(pl.index, pl.meshIdx, Position(pl.cells), Rotation(pl.cells),
               if KnownEvent(pl.event) then pl.event else 0)
  }

  function EntriesOf(pls: seq<Placement>): (es: seq<BrushEntry>)
    ensures |es| == |pls|
    ensures forall k :: 0 <= k < |pls| ==> es[k] == EntryOf(pls[k])
  {
    seq(|pls|, k requires 0 <= k < |pls| => EntryOf(pls[k]))
  }

  /** Some placement carries event t. */
  predicate Used(pls: seq<Placement>, t: int)
  {
    exists k :: 0 <= k < |pls| && pls[k].event == t
  }

  /** The bytes `4 * (meshDataBlockSz - 17)` a placement ends with. */
  function Tail(blockSize: int): nat
    requires MinBlockSize <= blockSize
  {
    4 * (blockSize - MinBlockSize)
  }

  /**
   * The title loop from title i of count at position p: each title is an int nameLen and
   * nameLen - 4 bytes. A negative byte count makes `new byte[]` throw; near the end of the
   * stream the read returns fewer bytes without complaint.
   */
  function Titles(d: seq<byte>, p: nat, i: nat, count: int): Result<nat>
    decreases count - i
  {
    if i >= count then Ok(p)
    else if p + 4 > |d| then Err(EndOfStream)
    else
      var n := Wrap32(I32(d, p) - 4);
      if n < 0 then Err(Overflow)
      else Titles(d, Cursor.Min(p + 4 + n, |d|), i + 1, count)
  }

  /** The info loop from info i of count at position p: the infos and the position after them. */
  function Infos(d: seq<byte>, p: nat, i: nat, count: int): Result<(seq<InfoRecord>, nat)>
    decreases count - i
  {
    if i >= count then Ok(([], p))
    else if p + InfoSize > |d| then Err(EndOfStream)
    else
      match Infos(d, p + InfoSize, i + 1, count)
      case Err(e) => Err(e)
      case Ok(rest) => Ok(([InfoAt(d, p)] + rest.0, rest.1))
  }

  /**
   * The placement loop from placement i of count at position p, with infoCount infos: a
   * mesh index outside the info list throws as soon as it is read; the tail is read leniently.
   */
  function Entries(d: seq<byte>, p: nat, i: nat, count: int, infoCount: nat, blockSize: int): Result<(seq<Placement>, nat)>
    requires MinBlockSize <= blockSize <= MaxBlockSize
    decreases count - i
  {
    if i >= count then Ok(([], p))
    else if p + 12 > |d| then Err(EndOfStream)
    else if !(0 <= I32(d, p + 8) < infoCount) then Err(IndexOutOfRange)
    else if p + EntrySize > |d| then Err(EndOfStream)
    else
      match Entries(d, Cursor.Min(p + EntrySize + Tail(blockSize), |d|), i + 1, count, infoCount, blockSize)
      case Err(e) => Err(e)
      case Ok(rest) => Ok(([PlacementAt(d, p, i)] + rest.0, rest.1))
  }

  /** Load: the signature, the block size, then the sections after the header. */
  function Parse(d: seq<byte>): Result<Contents>
  {
    if !IsCry(SignatureBytes(d)) then Err(WrongSignature)
    else if |d| < TitlesAt then Err(EndOfStream)
    else if !(MinBlockSize <= I32(d, BlockSizeAt) <= MaxBlockSize) then Err(UnexpectedBlockSize)
    else if |d| < TitlesAt + 4 then Err(EndOfStream)
    else Sections(d, I32(d, BlockSizeAt))
  }

  /** The title count and the titles, then the lists. */
  function Sections(d: seq<byte>, blockSize: int): Result<Contents>
    requires |d| >= TitlesAt + 4 && MinBlockSize <= blockSize <= MaxBlockSize
  {
    match Titles(d, TitlesAt + 4, 0, I32(d, TitlesAt))
    case Err(e) => Err(e)
    case Ok(p1) => Lists(d, p1, blockSize)
  }

  /** From position p1: the info count and the infos, then the placements. */
  function Lists(d: seq<byte>, p1: nat, blockSize: int): Result<Contents>
    requires MinBlockSize <= blockSize <= MaxBlockSize
  {
    if p1 + 4 > |d| then Err(EndOfStream)
    else
      match Infos(d, p1 + 4, 0, I32(d, p1))
      case Err(e) => Err(e)
      case Ok(ir) => Placed(d, InfosOf(ir.0), ir.1, blockSize)
  }

  /** From position p2, after the infos: the placement count and the placements. */
  function Placed(d: seq<byte>, infos: seq<BrushInfo>, p2: nat, blockSize: int): Result<Contents>
    requires MinBlockSize <= blockSize <= MaxBlockSize
  {
    if p2 + 4 > |d| then Err(EndOfStream)
    else
      match Entries(d, p2 + 4, 0, I32(d, p2), |infos|, blockSize)
      case Err(e) => Err(e)
      case Ok(er) => Ok(Contents(infos, er.0))
  }

  /** A load's outcome: the exception of a failed parse, or success. */
  function Unit(x: Result<Contents>): Result<()>
  {
    match x
    case Err(e) => Err(e)
    case Ok(_) => Ok(())
  }

  /** The loop results the loader's list fields hold once the loop has run. */
  function Finished<T>(xs: seq<T>, p: nat): Result<(seq<T>, nat)>
  {
    Ok((xs, p))
  }

  class Loader {
    var brushInfoList: seq<BrushInfo>
    var brushEntries: seq<BrushEntry>
    var eventUsage: array<bool>

    /** The field initialisers: empty lists and five unused events. */
    constructor()
      ensures brushInfoList == [] && brushEntries == []
      ensures fresh(eventUsage) && eventUsage.Length == EventKinds
      ensures forall t :: 0 <= t < EventKinds ==> !eventUsage[t]
    {
      brushInfoList := [];
      brushEntries := [];
      eventUsage := new bool[EventKinds](_ => false);
    }

    /** The fields after a successful Load: the lists of the contents, and the events they use. */
    predicate Loaded(c: Contents)
      reads this, eventUsage
    {
      && brushInfoList == c.infos
      && brushEntries == EntriesOf(c.placements)
      && eventUsage.Length == EventKinds
      && forall t :: 0 <= t < EventKinds ==> (eventUsage[t] <==> Used(c.placements, t))
    }

    /**
     * Load: throws where Parse fails with Parse's exception; otherwise fills the info and
     * entry lists and marks the events the placements use.
     */
    method Load(d: seq<byte>) returns (r: Result<()>)
      requires brushInfoList == [] && brushEntries == []
      requires eventUsage.Length == EventKinds && forall t :: 0 <= t < EventKinds ==> !eventUsage[t]
      modifies this, eventUsage
      ensures r == Unit(Parse(d))
      ensures r.Ok? ==> Loaded(Parse(d).value)
    {
      var sig := SignatureBytes(d);
      if !IsCry(sig) {
        return Err(WrongSignature);
      }
      var dw1, p0 := Cursor.ReadI32(d, 3);
      var blockSize, p1 := Cursor.ReadI32(d, p0);
      if dw1.Err? || blockSize.Err? {
        return Err(EndOfStream);
      }
      if blockSize.value < MinBlockSize || blockSize.value > MaxBlockSize {
        return Err(UnexpectedBlockSize);
      }
      var titlesCount, p2 := Cursor.ReadI32(d, p1);
      if titlesCount.Err? {
        return Err(EndOfStream);
      }
      assert Parse(d) == Sections(d, blockSize.value);
      var titlesEnd := SkipTitles(d, p2, titlesCount.value);
      if titlesEnd.Err? {
        return Err(titlesEnd.error);
      }
      r := LoadLists(d, titlesEnd.value, blockSize.value);
    }

    /** The rest of Load after the titles: the info list, then the placement list. */
    method LoadLists(d: seq<byte>, p1: nat, blockSize: int) returns (r: Result<()>)
      requires p1 <= |d| && MinBlockSize <= blockSize <= MaxBlockSize
      requires brushInfoList == [] && brushEntries == []
      requires eventUsage.Length == EventKinds && forall t :: 0 <= t < EventKinds ==> !eventUsage[t]
      modifies this, eventUsage
      ensures r == Unit(Lists(d, p1, blockSize))
      ensures r.Ok? ==> Loaded(Lists(d, p1, blockSize).value)
    {
      var infoCount, p3 := Cursor.ReadI32(d, p1);
      if infoCount.Err? {
        return Err(EndOfStream);
      }
      var infos := ReadInfos(d, p3, infoCount.value);
      if infos.Err? {
        return Err(infos.error);
      }
      brushInfoList := InfosOf(infos.value.0);
      var entryCount, p4 := Cursor.ReadI32(d, infos.value.1);
      if entryCount.Err? {
        return Err(EndOfStream);
      }
      ghost var placements;
      var entriesEnd;
      entriesEnd, placements := ReadEntries(d, p4, entryCount.value, blockSize);
      if entriesEnd.Err? {
        return Err(entriesEnd.error);
      }
      r := Ok(());
    }

    /**
     * The placement loop: appends one BrushEntry per placement to brushEntries and marks
     * each known event as used; `placements` are the placements read.
     */
    method ReadEntries(d: seq<byte>, start: nat, count: i32, blockSize: int) returns (r: Result<nat>, ghost placements: seq<Placement>)
      requires start <= |d| && MinBlockSize <= blockSize <= MaxBlockSize
      requires brushEntries == []
      requires eventUsage.Length == EventKinds && forall t :: 0 <= t < EventKinds ==> !eventUsage[t]
      modifies this, eventUsage
      ensures brushInfoList == old(brushInfoList) && eventUsage == old(eventUsage)
      ensures r.Ok? ==> Entries(d, start, 0, count, |brushInfoList|, blockSize) == Finished(placements, r.value)
      ensures r.Ok? ==> brushEntries == EntriesOf(placements)
      ensures r.Ok? ==> forall t :: 0 <= t < EventKinds ==> (eventUsage[t] <==> Used(placements, t))
      ensures r.Err? ==> Entries(d, start, 0, count, |brushInfoList|, blockSize) == Err(r.error)
    {
      var p: nat := start;
      var i: nat := 0;
      placements := [];
      Repeated.PrependNothing(Entries(d, p, i, count, |brushInfoList|, blockSize));
      while i < count
        invariant p <= |d| && (i <= count || i == 0) && i == |placements|
        invariant brushInfoList == old(brushInfoList) && eventUsage == old(eventUsage)
        invariant Entries(d, start, 0, count, |brushInfoList|, blockSize) ==
                  Repeated.Prepend(placements, Entries(d, p, i, count, |brushInfoList|, blockSize))
        invariant brushEntries == EntriesOf(placements)
        invariant forall t :: 0 <= t < EventKinds ==> (eventUsage[t] <==> Used(placements, t))
        decreases count - i
      {
        var pl, q := ReadPlacement(d, p, i, |brushInfoList|, blockSize);
        if pl.Err? {
          return Err(pl.error), placements;
        }
        Repeated.PrependStep(placements, pl.value, Entries(d, q, i + 1, count, |brushInfoList|, blockSize));
        UsedStep(placements, pl.value);
        EntriesOfStep(placements, pl.value);
        if KnownEvent(pl.value.event) {
          eventUsage[pl.value.event] := true;
        }
        brushEntries := brushEntries + [EntryOf(pl.value)];
        placements := placements + [pl.value];
        p := q;
        i := i + 1;
      }
      assert Entries(d, p, i, count, |brushInfoList|, blockSize) == Ok(([], p)) && placements + [] == placements;
      r := Ok(p);
    }
  }

  /** `new BrushLstLoader(stream)`: the constructor runs Load, so a bad file makes it throw. */
  method Open(d: seq<byte>) returns (r: Result<Loader>)
    ensures r.Ok? <==> Parse(d).Ok?
    ensures r.Err? ==> r.error == Parse(d).error
    ensures r.Ok? ==> fresh(r.value) && r.value.Loaded(Parse(d).value)
  {
    var b := new Loader();
    var loaded := b.Load(d);
    if loaded.Err? {
      return Err(loaded.error);
    }
    r := Ok(b);
  }

  /** The title loop of Load. */
  method SkipTitles(d: seq<byte>, start: nat, count: i32) returns (r: Result<nat>)
    requires start <= |d|
    ensures r == Titles(d, start, 0, count)
    ensures r.Ok? ==> r.value <= |d|
  {
    var p: nat := start;
    var i: nat := 0;
    while i < count
      invariant p <= |d| && (i <= count || i == 0)
      invariant Titles(d, start, 0, count) == Titles(d, p, i, count)
      decreases count - i
    {
      var nameLen, q := Cursor.ReadI32(d, p);
      if nameLen.Err? {
        return Err(EndOfStream);
      }
      var n := Wrap32(nameLen.value as int - 4);
      if n < 0 {
        return Err(Overflow);
      }
      var name, q' := Cursor.ReadBytes(d, q, n);
      p := q';
      i := i + 1;
    }
    r := Ok(p);
  }

  /** The info loop of Load: one record per info, appended in file order. */
  method ReadInfos(d: seq<byte>, start: nat, count: i32) returns (r: Result<(seq<InfoRecord>, nat)>)
    requires start <= |d|
    ensures r == Infos(d, start, 0, count)
  {
    var infos: seq<InfoRecord> := [];
    var p: nat := start;
    var i: nat := 0;
    Repeated.PrependNothing(Infos(d, p, i, count));
    while i < count
      invariant p <= |d| && (i <= count || i == 0) && i == |infos|
      invariant Infos(d, start, 0, count) == Repeated.Prepend(infos, Infos(d, p, i, count))
      decreases count - i
    {
      var info, q := ReadInfo(d, p);
      if info.Err? {
        return Err(info.error);
      }
      InfosStep(d, p, i, count);
      Repeated.PrependStep(infos, info.value, Infos(d, q, i + 1, count));
      infos := infos + [info.value];
      p := q;
      i := i + 1;
    }
    assert Infos(d, p, i, count) == Ok(([], p)) && infos + [] == infos;
    r := Ok((infos, p));
  }

  /** One mesh info: the reads of one turn of the info loop. */
  method ReadInfo(d: seq<byte>, p: nat) returns (r: Result<InfoRecord>, q: nat)
    requires p <= |d|
    ensures p + InfoSize <= |d| ==> r == Ok(InfoAt(d, p)) && q == p + InfoSize && q <= |d|
    ensures p + InfoSize > |d| ==> r == Err(EndOfStream)
  {
    var skip, p1 := Cursor.ReadI32(d, p);
    if p + InfoSize > |d| {
      return Err(EndOfStream), p;
    }
    var name := d[p1..p1 + NameSize];
    var x1, y1, z1 := U32(d, p + 136), U32(d, p + 140), U32(d, p + 144);
    var x2, y2, z2 := U32(d, p + 148), U32(d, p + 152), U32(d, p + 156);
    r := Ok(InfoRecord(name, Float32.Vec3Bits(x1, y1, z1), Float32.Vec3Bits(x2, y2, z2)));
    q := p + InfoSize;
  }

  /**
   * One placement: two skipped ints, the mesh index and its range check, three skipped
   * ints, twelve floats, four bytes, three ints, the event int, two ints, then the tail.
   */
  method ReadPlacement(d: seq<byte>, p: nat, i: int, infoCount: nat, blockSize: int) returns (r: Result<Placement>, q: nat)
    requires p <= |d| && MinBlockSize <= blockSize <= MaxBlockSize
    ensures q <= |d|
    ensures p + 12 > |d| ==> r == Err(EndOfStream)
    ensures p + 12 <= |d| && !(0 <= I32(d, p + 8) < infoCount) ==> r == Err(IndexOutOfRange)
    ensures p + 12 <= |d| && 0 <= I32(d, p + 8) < infoCount && p + EntrySize > |d| ==> r == Err(EndOfStream)
    ensures p + EntrySize <= |d| && 0 <= I32(d, p + 8) < infoCount ==>
              r == Ok(PlacementAt(d, p, i)) && q == Cursor.Min(p + EntrySize + Tail(blockSize), |d|)
  {
    var meshIdx, p1 := Cursor.ReadI32(d, p + 8);
    if meshIdx.Err? {
      return Err(EndOfStream), p;
    }
    if meshIdx.value < 0 || meshIdx.value >= infoCount {
      return Err(IndexOutOfRange), p;
    }
    if p + EntrySize > |d| {
      return Err(EndOfStream), p;
    }
    var cells := CellsAt(d, p);
    var event := I32(d, p + 88);
    var tail, q' := Cursor.ReadBytes(d, p + EntrySize, Tail(blockSize));
    r := Ok(Placement(i, meshIdx.value, cells, event));
    q := q';
  }

  /** One info of the loop: the info at p, then the rest. */
  lemma InfosStep(d: seq<byte>, p: nat, i: nat, count: int)
    requires i < count && p + InfoSize <= |d|
    ensures Infos(d, p, i, count) == Repeated.Prepend([InfoAt(d, p)], Infos(d, p + InfoSize, i + 1, count))
  {
  }

  lemma UsedStep(pls: seq<Placement>, pl: Placement)
    ensures forall t :: Used(pls + [pl], t) <==> Used(pls, t) || pl.event == t
  {
    var all := pls + [pl];
    forall t | Used(pls, t)
      ensures Used(all, t)
    {
      var k :| 0 <= k < |pls| && pls[k].event == t;
      assert all[k] == pls[k];
    }
    assert all[|pls|] == pl;
  }

  lemma EntriesOfStep(pls: seq<Placement>, pl: Placement)
    ensures EntriesOf(pls + [pl]) == EntriesOf(pls) + [EntryOf(pl)]
  {
  }

  // ---------------------------------------------------------------------------
  // Properties

  /** A file whose first three bytes are not "CRY" is refused with "Wrong signature". */
  lemma SignatureChecked(d: seq<byte>)
    ensures Parse(d).Ok? ==> |d| >= 3 && d[0] == 0x43 && d[1] == 0x52 && d[2] == 0x59
    ensures !(|d| >= 3 && d[0] == 0x43 && d[1] == 0x52 && d[2] == 0x59) ==> Parse(d) == Err(WrongSignature)
  {
    var sig := SignatureBytes(d);
    assert IsCry(sig) <==> sig[0] == 0x43 && sig[1] == 0x52 && sig[2] == 0x59;
    if |d| < 3 {
      assert sig[|d|] == 0;
    }
  }

  /** After a "CRY" signature, a block size outside [17, 19] is refused with "unexpected block size". */
  lemma BlockSizeChecked(d: seq<byte>)
    requires IsCry(SignatureBytes(d)) && |d| >= TitlesAt
    ensures !(MinBlockSize <= I32(d, BlockSizeAt) <= MaxBlockSize) ==> Parse(d) == Err(UnexpectedBlockSize)
    ensures Parse(d).Ok? ==> MinBlockSize <= I32(d, BlockSizeAt) <= MaxBlockSize
  {
  }

  /** The info loop reads exactly count infos. */
  lemma {:induction false} InfosCount(d: seq<byte>, p: nat, i: nat, count: int)
    requires Infos(d, p, i, count).Ok?
    ensures |Infos(d, p, i, count).value.0| == if count > i then count - i else 0
    decreases count - i
  {
    if i < count {
      InfosCount(d, p + InfoSize, i + 1, count);
    }
  }

  /**
   * A loaded info list holds, at index k, info k of the file with brushInfoIndex k and its
   * name in normal form.
   */
  lemma InfoIndexes(d: seq<byte>, k: int)
    requires Parse(d).Ok? && 0 <= k < |Parse(d).value.infos|
    ensures var info := Parse(d).value.infos[k];
            info.brushInfoIndex == k && Util.NormalizeMeshFilename(info.filename) == info.filename
            && forall j :: 0 <= j < |info.filename| ==> info.filename[j] != '\\' && !Ascii.IsUpper(info.filename[j])
  {
    var recs := ParsedInfos(d);
    InfoNameNormal(recs[k].name);
  }

  /** The info records behind a loaded info list. */
  ghost function ParsedInfos(d: seq<byte>): (recs: seq<InfoRecord>)
    requires Parse(d).Ok?
    ensures Parse(d).value.infos == InfosOf(recs)
  {
    var blockSize := I32(d, BlockSizeAt);
    assert Parse(d) == Sections(d, blockSize);
    var p1 := Titles(d, TitlesAt + 4, 0, I32(d, TitlesAt)).value;
    assert Sections(d, blockSize) == Lists(d, p1, blockSize);
    Infos(d, p1 + 4, 0, I32(d, p1)).value.0
  }

  /**
   * A mesh info's file name is in normal form: no '\\', no upper-case ASCII letter, no NUL
   * at either end, and normalising it again changes nothing.
   */
  lemma InfoNameNormal(bs: seq<byte>)
    ensures var n := InfoName(bs);
            (forall k :: 0 <= k < |n| ==> n[k] != '\\' && !Ascii.IsUpper(n[k]))
            && (n == [] || (n[0] != '\0' && n[|n| - 1] != '\0'))
            && Util.NormalizeMeshFilename(n) == n
  {
    var s := Ascii.TrimStartChars(Ascii.Trim(PakUtil.Utf8Text(bs)), {'\0'});
    var t := Ascii.TrimEndChars(s, {'\0'});
    NoNulEnds(s, t);
    NormalizedEnds(t);
    Util.NormalizeMeshFilenameIdempotent(t);
  }

  lemma NoNulEnds(s: string, t: string)
    requires s == [] || s[0] != '\0'
    requires t == Ascii.TrimEndChars(s, {'\0'})
    ensures t == [] || (t[0] != '\0' && t[|t| - 1] != '\0')
  {
    if t != [] {
      assert t[0] == s[0];
    }
  }

  /** Normalising keeps a name free of NULs at its ends. */
  lemma NormalizedEnds(t: string)
    requires t == [] || (t[0] != '\0' && t[|t| - 1] != '\0')
    ensures var n := Util.NormalizeMeshFilename(t);
            n == [] || (n[0] != '\0' && n[|n| - 1] != '\0')
  {
    var l := Ascii.LowerString(t);
    if t != [] {
      assert l[0] == Ascii.Lower(t[0]) && l[|l| - 1] == Ascii.Lower(t[|t| - 1]);
    }
  }

  /** Placement k carries index i + k and a mesh index inside an info list of infoCount. */
  predicate PlacementsInRange(pls: seq<Placement>, i: int, infoCount: nat)
  {
    forall k :: 0 <= k < |pls| ==> pls[k].index == i + k && 0 <= pls[k].meshIdx < infoCount
  }

  /** The placement loop reads exactly count placements, each indexed and pointing at an info. */
  lemma {:induction false} EntriesInRange(d: seq<byte>, p: nat, i: nat, count: int, infoCount: nat, blockSize: int)
    requires MinBlockSize <= blockSize <= MaxBlockSize
    requires Entries(d, p, i, count, infoCount, blockSize).Ok?
    ensures |Entries(d, p, i, count, infoCount, blockSize).value.0| == if count > i then count - i else 0
    ensures PlacementsInRange(Entries(d, p, i, count, infoCount, blockSize).value.0, i, infoCount)
    decreases count - i
  {
    if i < count {
      var q := Cursor.Min(p + EntrySize + Tail(blockSize), |d|);
      EntriesInRange(d, q, i + 1, count, infoCount, blockSize);
      var rest := Entries(d, q, i + 1, count, infoCount, blockSize).value.0;
      var pls := [PlacementAt(d, p, i)] + rest;
      assert forall k :: 0 < k < |pls| ==> pls[k] == rest[k - 1];
    }
  }

  /** In a loaded file, placement k has index k and a mesh index naming one of the infos. */
  lemma EntryIndexes(d: seq<byte>)
    requires Parse(d).Ok?
    ensures PlacementsInRange(Parse(d).value.placements, 0, |Parse(d).value.infos|)
  {
    SectionsEntries(d, I32(d, BlockSizeAt));
  }

  lemma SectionsEntries(d: seq<byte>, blockSize: int)
    requires |d| >= TitlesAt + 4 && MinBlockSize <= blockSize <= MaxBlockSize
    requires Sections(d, blockSize).Ok?
    ensures PlacementsInRange(Sections(d, blockSize).value.placements, 0, |Sections(d, blockSize).value.infos|)
  {
    ListsEntries(d, Titles(d, TitlesAt + 4, 0, I32(d, TitlesAt)).value, blockSize);
  }

  lemma ListsEntries(d: seq<byte>, p1: nat, blockSize: int)
    requires MinBlockSize <= blockSize <= MaxBlockSize
    requires Lists(d, p1, blockSize).Ok?
    ensures PlacementsInRange(Lists(d, p1, blockSize).value.placements, 0, |Lists(d, p1, blockSize).value.infos|)
  {
    var ir := Infos(d, p1 + 4, 0, I32(d, p1)).value;
    EntriesInRange(d, ir.1 + 4, 0, I32(d, ir.1), |ir.0|, blockSize);
  }

  /**
   * The first placement whose mesh index is outside the info list makes the loop throw
   * IndexOutOfRangeException.
   */
  lemma BadMeshIndexThrows(d: seq<byte>, p: nat, i: nat, count: int, infoCount: nat, blockSize: int)
    requires MinBlockSize <= blockSize <= MaxBlockSize
    requires i < count && p + 12 <= |d| && !(0 <= I32(d, p + 8) < infoCount)
    ensures Entries(d, p, i, count, infoCount, blockSize) == Err(IndexOutOfRange)
  {
  }

  /**
   * An entry's position is the last column of its matrix; its rotation holds the 3x3 block
   * in place, zeros in the fourth row and column, and 1 in the corner.
   */
  lemma PlacementMatrix(pl: Placement, row: nat, col: nat)
    requires row < 4 && col < 4
    ensures var e := EntryOf(pl);
            |e.rotation| == 16
            && (row < 3 && col < 3 ==> e.rotation[4 * row + col] == pl.cells[4 * row + col])
            && (row < 3 && col == 3 ==> e.rotation[4 * row + col] == 0)
            && (row == 3 ==> e.rotation[4 * row + col] == if col == 3 then Float32.One else 0)
            && (e.position == Float32.Vec3Bits(pl.cells[3], pl.cells[7], pl.cells[11]))
  {
  }

  /** The event of an entry is its placement's event when that is 0 to 4, otherwise 0. */
  lemma EntryEvent(pl: Placement)
    ensures KnownEvent(pl.event) ==> EntryOf(pl).eventType == pl.event
    ensures !KnownEvent(pl.event) ==> EntryOf(pl).eventType == 0
  {
  }

  /**
   * After a load, each decoration 1 to 4 is marked used exactly when some entry carries it;
   * entry k's placement in the file carries the event int the usage was read from.
   */
  lemma {:induction false} UsageMatchesEntries(b: Loader, c: Contents, t: int)
    requires b.Loaded(c) && 1 <= t < EventKinds
    ensures b.eventUsage[t] <==> exists k :: 0 <= k < |b.brushEntries| && b.brushEntries[k].eventType == t
  {
    if b.eventUsage[t] {
      var k :| 0 <= k < |c.placements| && c.placements[k].event == t;
      assert b.brushEntries[k].eventType == t;
    }
    if exists k :: 0 <= k < |b.brushEntries| && b.brushEntries[k].eventType == t {
      var k :| 0 <= k < |b.brushEntries| && b.brushEntries[k].eventType == t;
      assert c.placements[k].event == t;
    }
  }
}
