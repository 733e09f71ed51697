/// WorldGeoFileBuilder.cs: the .geo file of a level. The terrain heights of the .h32 file,
/// two bytes kept of every three, with the sorted indexes of the cut-out cells; then one
/// placement record per brush and per vegetation object whose mesh was loaded and is not empty.
module WorldGeoFileBuilder {
  import opened Outcome
  import opened Bytes
  import Float32
  import Util
  import H32Loader
  import BrushLstLoader
  import ObjectsLstLoader

  /** What the file starts with when no terrain is kept: byte 0 (no mesh), short 0, int 0 (no cut-outs). */
  const Stub: seq<byte> := [0, 0, 0, 0, 0, 0, 0]

  /** The nine floats M11, M12, M13, M21, ..., M33 of a rotation. */
  type Rotation9 = s: seq<u32> | |s| == 9 witness [0, 0, 0, 0, 0, 0, 0, 0, 0]

  /**
   * The floats of a vegetation object's placement: its Position and the 3x3 block of
   * Matrix.CreateRotationZ(MathHelper.ToRadians(Heading)).
   */
  datatype Transform = Transform(position: Float32.Vec3Bits, rotation: Rotation9)

  /** The two lists of a BrushLstLoader. */
  datatype BrushLists = BrushLists(infos: seq<BrushLstLoader.BrushInfo>, entries: seq<BrushLstLoader.BrushEntry>)

  // ---------------------------------------------------------------------------
  // Terrain

  /** The converted heights of the first k records: bytes 0 and 1 of each, the material byte dropped. */
  function ConvertedUpTo(h: seq<byte>, k: nat): seq<byte>
    requires 3 * k <= |h|
  {
    if k == 0 then [] else ConvertedUpTo(h, k - 1) + [h[3 * (k - 1)], h[3 * (k - 1) + 1]]
  }

  /** The cut-out set of the first k records: the indexes whose third byte is 0x3F. */
  function CutoutsUpTo(h: seq<byte>, k: nat): set<int>
    requires 3 * k <= |h|
  {
    set j | 0 <= j < k && h[3 * j + 2] == H32Loader.CutoutMaterial
  }

  /** The cut-out indexes of the first k records in ascending order. */
  function CutoutList(h: seq<byte>, k: nat): seq<int>
    requires 3 * k <= |h|
  {
    if k == 0 then []
    else CutoutList(h, k - 1) + (if h[3 * (k - 1) + 2] == H32Loader.CutoutMaterial then [k - 1] else [])
  }

  /** The first k records have both height bytes zero. */
  predicate ZeroHeights(h: seq<byte>, k: nat)
    requires 3 * k <= |h|
  {
    forall j :: 0 <= j < k ==> h[3 * j] == 0 && h[3 * j + 1] == 0
  }

  /** BinaryWriter.Write(int) of each value in turn. */
  function Ints(xs: seq<int>): (s: seq<byte>)
    ensures |s| == 4 * |xs|
  {
    if xs == [] then [] else Ints(xs[..|xs| - 1]) + LEI32(Wrap32(xs[|xs| - 1]))
  }

  /**
   * The terrain part of the file and whether the conversion aborted. Without terrain, the
   * stub. A length that is not a multiple of 3 makes the conversion read past the end: the
   * exception is caught and the method returns with only the first byte and the count
   * written. An all-zero terrain is dropped for the stub, cut-outs included.
   */
  function TerrainPart(noH32: bool, h32: Option<seq<byte>>): (seq<byte>, bool)
  {
    if noH32 || h32.None? then (Stub, false)
    else
      var h := h32.value;
      var n := |h| / 3;
      if |h| % 3 != 0 then ([1] + LEI32(Wrap32(n)), true)
      else if ZeroHeights(h, n) then (Stub, false)
      else ([1] + LEI32(Wrap32(n)) + ConvertedUpTo(h, n) + LEI32(Wrap32(|CutoutList(h, n)|)) + Ints(CutoutList(h, n)), false)
  }

  // ---------------------------------------------------------------------------
  // Placement records

  /** Encoding.ASCII.GetBytes: characters outside ASCII become '?'. */
  function AsciiBytes(s: string): (bs: seq<byte>)
    ensures |bs| == |s|
  {
    seq(|s|, i requires 0 <= i < |s| => if s[i] as int < 0x80 then s[i] as int else 0x3F)
  }

  /** BinaryWriter.Write(float) of each float in turn. */
  function Words(ws: seq<u32>): (s: seq<byte>)
    ensures |s| == 4 * |ws|
  {
    if ws == [] then [] else Words(ws[..|ws| - 1]) + LE32(ws[|ws| - 1])
  }

  /**
   * One placement record: the name's length as a short, the name in ASCII, three position
   * floats, nine rotation floats, the scale float and the event byte.
   */
  function Record(name: string, position: Float32.Vec3Bits, rotation: Rotation9, scale: u32, event: byte): seq<byte>
  {
    var nb := AsciiBytes(name);
    LE16(|nb| % 0x1_0000) + nb + Words([position.x, position.y, position.z] + rotation + [scale]) + [event]
  }

  /** ShouldSkipMesh: the normalised name was not loaded, or its mesh is empty. */
  function ShouldSkipMesh(meshFileName: string, loadedCgfs: set<string>, emptyCgfs: set<string>): (skip: bool)
  {
    var normalizedFilename := Util.NormalizeMeshFilename(meshFileName);
    normalizedFilename !in loadedCgfs || normalizedFilename in emptyCgfs
  }

  /** M11 to M33 of a brush's rotation Matrix. */
  function BrushRotation(m: BrushLstLoader.MatrixCells): Rotation9
  {
    [m[0], m[1], m[2], m[4], m[5], m[6], m[8], m[9], m[10]]
  }

  /**
   * The bytes of one brush: its info's file name through the list indexer, which throws
   * out of range; nothing for a skipped mesh; otherwise its record with scale 1.
   */
  function BrushBytes(lists: BrushLists, loadedCgfs: set<string>, emptyCgfs: set<string>, e: BrushLstLoader.BrushEntry): Result<seq<byte>>
  {
    if !(0 <= e.meshIdx < |lists.infos|) then Err(ArgumentOutOfRange)
    else
      var name := lists.infos[e.meshIdx].filename;
      if ShouldSkipMesh(name, loadedCgfs, emptyCgfs) then Ok([])
      else Ok(Record(name, e.position, BrushRotation(e.rotation), Float32.One, e.eventType))
  }

  /**
   * The bytes of one vegetation object: its file name by object id through the list
   * indexer; nothing for a skipped mesh; otherwise its record with its own scale and event 0.
   */
  function VegetationBytes(names: seq<string>, loadedCgfs: set<string>, emptyCgfs: set<string>,
                           transform: ObjectsLstLoader.Item -> Transform, obj: ObjectsLstLoader.Item): Result<seq<byte>>
  {
    if obj.objectId >= |names| then Err(ArgumentOutOfRange)
    else
      var name := names[obj.objectId];
      if ShouldSkipMesh(name, loadedCgfs, emptyCgfs) then Ok([])
      else
        var t := transform(obj);
        Ok(Record(name, t.position, t.rotation, obj.scale, 0))
  }

  /** Append one item's bytes to the output so far, keeping the first exception. */
  function Then(out: Result<seq<byte>>, more: Result<seq<byte>>): Result<seq<byte>>
  {
    match out
    case Err(e) => Err(e)
    case Ok(bs) =>
      match more
      case Err(e) => Err(e)
      case Ok(ms) => Ok(bs + ms)
  }

  /** The brush loop over the first k entries. */
  function BrushesOut(lists: BrushLists, loadedCgfs: set<string>, emptyCgfs: set<string>, k: nat): Result<seq<byte>>
    requires k <= |lists.entries|
  {
    if k == 0 then Ok([])
    else Then(BrushesOut(lists, loadedCgfs, emptyCgfs, k - 1), BrushBytes(lists, loadedCgfs, emptyCgfs, lists.entries[k - 1]))
  }

  /** The vegetation loop over the first k objects. */
  function VegetationOut(names: seq<string>, loadedCgfs: set<string>, emptyCgfs: set<string>,
                         transform: ObjectsLstLoader.Item -> Transform, objects: seq<ObjectsLstLoader.Item>, k: nat): Result<seq<byte>>
    requires k <= |objects|
  {
    if k == 0 then Ok([])
    else Then(VegetationOut(names, loadedCgfs, emptyCgfs, transform, objects, k - 1),
              VegetationBytes(names, loadedCgfs, emptyCgfs, transform, objects[k - 1]))
  }

  /**
   * CreateWorldGeoFile: the terrain part, then, unless the conversion aborted, the brush
   * records (when there is a brush list) and the vegetation records (when there is an
   * object list). An exception in those loops leaves the method.
   */
  function GeoFile(noH32: bool, h32: Option<seq<byte>>, brushLst: Option<BrushLists>, names: seq<string>,
                   objects: Option<seq<ObjectsLstLoader.Item>>, loadedCgfs: set<string>, emptyCgfs: set<string>,
                   transform: ObjectsLstLoader.Item -> Transform): Result<seq<byte>>
  {
    var terrain := TerrainPart(noH32, h32);
    if terrain.1 then Ok(terrain.0)
    else
      var brushes := if brushLst.None? then Ok([]) else BrushesOut(brushLst.value, loadedCgfs, emptyCgfs, |brushLst.value.entries|);
      var vegetation := if objects.None? then Ok([]) else VegetationOut(names, loadedCgfs, emptyCgfs, transform, objects.value, |objects.value|);
      Then(Then(Ok(terrain.0), brushes), vegetation)
  }

  // ---------------------------------------------------------------------------
  // The builder

  class Builder {
    const clientLevelId: string
    const landMapH32: Option<seq<byte>>
    const brushLst: Option<BrushLists>
    const vegetationCgfFilenames: seq<string>
    const objectsLst: Option<seq<ObjectsLstLoader.Item>>

    /** The constructor keeps its arguments. */
    constructor(clientLevelId: string, landMapH32: Option<seq<byte>>, brushLst: Option<BrushLists>,
                vegetationCgfFilenames: seq<string>, objectsLst: Option<seq<ObjectsLstLoader.Item>>)
      ensures this.clientLevelId == clientLevelId && this.landMapH32 == landMapH32 && this.brushLst == brushLst
      ensures this.vegetationCgfFilenames == vegetationCgfFilenames && this.objectsLst == objectsLst
    {
      this.clientLevelId := clientLevelId;
      this.landMapH32 := landMapH32;
      this.brushLst := brushLst;
      this.vegetationCgfFilenames := vegetationCgfFilenames;
      this.objectsLst := objectsLst;
    }

    /** CreateWorldGeoFile: the bytes of `<clientLevelId>.geo`, or the exception that leaves it. */
    method CreateWorldGeoFile(noH32: bool, loadedCgfs: set<string>, emptyCgfs: set<string>,
                              transform: ObjectsLstLoader.Item -> Transform) returns (r: Result<seq<byte>>)
      ensures r == GeoFile(noH32, landMapH32, brushLst, vegetationCgfFilenames, objectsLst, loadedCgfs, emptyCgfs, transform)
    {
      var terrain, aborted := WriteTerrain(noH32, landMapH32);
      ghost var part := TerrainPart(noH32, landMapH32);
      assert part.0 == terrain && part.1 == aborted;
      if aborted {
        assert GeoFile(noH32, landMapH32, brushLst, vegetationCgfFilenames, objectsLst, loadedCgfs, emptyCgfs, transform) == Ok(terrain);
        return Ok(terrain);
      }
      var out := Ok(terrain);
      if brushLst.Some? {
        var brushes := WriteBrushes(brushLst.value, loadedCgfs, emptyCgfs);
        out := Then(out, brushes);
      } else {
        assert Then(out, Ok([])) == out by { assert terrain + [] == terrain; }
      }
      if objectsLst.Some? {
        var vegetation := WriteVegetation(vegetationCgfFilenames, loadedCgfs, emptyCgfs, transform, objectsLst.value);
        out := Then(out, vegetation);
      } else {
        assert out.Ok? ==> out.value + [] == out.value;
        assert Then(out, Ok([])) == out;
      }
      r := out;
    }
  }

  /** The terrain part of CreateWorldGeoFile: the header, the converted heights, the cut-outs, or the stub. */
  method WriteTerrain(noH32: bool, h32: Option<seq<byte>>) returns (out: seq<byte>, aborted: bool)
    ensures (out, aborted) == TerrainPart(noH32, h32)
  {
    var h32DataCopied := false;
    out := [];
    if !noH32 && h32.Some? {
      var h := h32.value;
      out := [1] + LEI32(Wrap32(|h| / 3));
      var ok, converted, cutouts, isEmpty := ConvertTerrain(h);
      if !ok {
        return out, true;
      }
      if !isEmpty {
        out := out + converted[..];
        h32DataCopied := true;
      }
      CutoutListIsSet(h, |h| / 3);
      var sorted := CutoutList(h, |h| / 3);
      out := out + LEI32(Wrap32(|cutouts|)) + Ints(sorted);
    }
    if !h32DataCopied {
      out := Stub;
    }
    aborted := false;
  }

  /**
   * The conversion loop: each record's two height bytes go to the array, a 0x3F third byte
   * adds the record's index to the cut-outs, a nonzero height byte clears isEmpty. A read
   * past the end (a length that is not a multiple of 3) fails the conversion.
   */
  method ConvertTerrain(h: seq<byte>) returns (ok: bool, converted: array<byte>, cutouts: set<int>, isEmpty: bool)
    ensures ok <==> |h| % 3 == 0
    ensures ok ==> converted[..] == ConvertedUpTo(h, |h| / 3)
    ensures ok ==> cutouts == CutoutsUpTo(h, |h| / 3) && (isEmpty <==> ZeroHeights(h, |h| / 3))
  {
    converted := new byte[|h| / 3 * 2];
    cutouts := {};
    isEmpty := true;
    var src := 0;
    var dst := 0;
    ghost var k := 0;
    while src < |h|
      invariant 3 * k <= |h| && src == 3 * k && dst == 2 * k && converted.Length == |h| / 3 * 2
      invariant ConvertedSoFar(h, k, converted[..dst], cutouts, isEmpty)
      decreases |h| - src
    {
      var p1 := h[src];
      src := src + 1;
      if src >= |h| {
        return false, converted, cutouts, isEmpty;
      }
      var p2 := h[src];
      src := src + 1;
      if src >= |h| {
        return false, converted, cutouts, isEmpty;
      }
      var p3 := h[src];
      src := src + 1;
      RoomFor(h, k);
      TerrainStep(h, k, converted[..dst], cutouts, isEmpty);
      if p3 == H32Loader.CutoutMaterial {
        cutouts := cutouts + {src / 3 - 1};
      }
      converted[dst] := p1;
      converted[dst + 1] := p2;
      assert converted[..dst + 2] == converted[..dst] + [p1, p2];
      dst := dst + 2;
      if isEmpty && (p1 != 0 || p2 != 0) {
        isEmpty := false;
      }
      k := k + 1;
    }
    assert k == |h| / 3 && |h| % 3 == 0;
    assert converted[..] == converted[..dst];
    ok := true;
  }

  /** The state of the conversion loop after k records. */
  predicate ConvertedSoFar(h: seq<byte>, k: nat, written: seq<byte>, cutouts: set<int>, isEmpty: bool)
    requires 3 * k <= |h|
  {
    written == ConvertedUpTo(h, k) && cutouts == CutoutsUpTo(h, k) && (isEmpty <==> ZeroHeights(h, k))
  }

  /** A whole record at 3k leaves room for its two bytes in the array. */
  lemma RoomFor(h: seq<byte>, k: nat)
    requires 3 * k + 3 <= |h|
    ensures 2 * k + 2 <= |h| / 3 * 2 && (3 * k + 3) / 3 - 1 == k
  {
  }

  /** One record more: its two bytes, its cut-out, its height. */
  lemma TerrainStep(h: seq<byte>, k: nat, written: seq<byte>, cutouts: set<int>, isEmpty: bool)
    requires 3 * k + 3 <= |h|
    requires ConvertedSoFar(h, k, written, cutouts, isEmpty)
    ensures ConvertedSoFar(h, k + 1, written + [h[3 * k], h[3 * k + 1]],
                           cutouts + (if h[3 * k + 2] == H32Loader.CutoutMaterial then {k} else {}),
                           isEmpty && !(h[3 * k] != 0 || h[3 * k + 1] != 0))
  {
  }

  /** The brush loop of CreateWorldGeoFile. */
  method WriteBrushes(lists: BrushLists, loadedCgfs: set<string>, emptyCgfs: set<string>) returns (r: Result<seq<byte>>)
    ensures r == BrushesOut(lists, loadedCgfs, emptyCgfs, |lists.entries|)
  {
    var out: seq<byte> := [];
    var k := 0;
    while k < |lists.entries|
      invariant k <= |lists.entries| && BrushesOut(lists, loadedCgfs, emptyCgfs, k) == Ok(out)
    {
      var brush := lists.entries[k];
      assert BrushesOut(lists, loadedCgfs, emptyCgfs, k + 1) ==
             Then(Ok(out), BrushBytes(lists, loadedCgfs, emptyCgfs, brush));
      if !(0 <= brush.meshIdx < |lists.infos|) {
        BrushesErrStays(lists, loadedCgfs, emptyCgfs, k + 1, |lists.entries|);
        return Err(ArgumentOutOfRange);
      }
      var meshFileName := lists.infos[brush.meshIdx].filename;
      if !ShouldSkipMesh(meshFileName, loadedCgfs, emptyCgfs) {
        out := out + Record(meshFileName, brush.position, BrushRotation(brush.rotation), Float32.One, brush.eventType);
      } else {
        assert out + [] == out;
      }
      k := k + 1;
    }
    r := Ok(out);
  }

  /** The vegetation loop of CreateWorldGeoFile. */
  method WriteVegetation(names: seq<string>, loadedCgfs: set<string>, emptyCgfs: set<string>,
                         transform: ObjectsLstLoader.Item -> Transform, objects: seq<ObjectsLstLoader.Item>) returns (r: Result<seq<byte>>)
    ensures r == VegetationOut(names, loadedCgfs, emptyCgfs, transform, objects, |objects|)
  {
    var out: seq<byte> := [];
    var k := 0;
    while k < |objects|
      invariant k <= |objects| && VegetationOut(names, loadedCgfs, emptyCgfs, transform, objects, k) == Ok(out)
    {
      var obj := objects[k];
      assert VegetationOut(names, loadedCgfs, emptyCgfs, transform, objects, k + 1) ==
             Then(Ok(out), VegetationBytes(names, loadedCgfs, emptyCgfs, transform, obj));
      if obj.objectId >= |names| {
        VegetationErrStays(names, loadedCgfs, emptyCgfs, transform, objects, k + 1, |objects|);
        return Err(ArgumentOutOfRange);
      }
      var meshFileName := names[obj.objectId];
      if !ShouldSkipMesh(meshFileName, loadedCgfs, emptyCgfs) {
        var t := transform(obj);
        out := out + Record(meshFileName, t.position, t.rotation, obj.scale, 0);
      } else {
        assert out + [] == out;
      }
      k := k + 1;
    }
    r := Ok(out);
  }

  /** Once the brush loop has thrown, the exception is the loop's outcome. */
  lemma {:induction false} BrushesErrStays(lists: BrushLists, loadedCgfs: set<string>, emptyCgfs: set<string>, k: nat, m: nat)
    requires k <= m <= |lists.entries| && BrushesOut(lists, loadedCgfs, emptyCgfs, k).Err?
    ensures BrushesOut(lists, loadedCgfs, emptyCgfs, m) == BrushesOut(lists, loadedCgfs, emptyCgfs, k)
    decreases m - k
  {
    if k < m {
      BrushesErrStays(lists, loadedCgfs, emptyCgfs, k, m - 1);
    }
  }

  /** Once the vegetation loop has thrown, the exception is the loop's outcome. */
  lemma {:induction false} VegetationErrStays(names: seq<string>, loadedCgfs: set<string>, emptyCgfs: set<string>,
                                              transform: ObjectsLstLoader.Item -> Transform, objects: seq<ObjectsLstLoader.Item>, k: nat, m: nat)
    requires k <= m <= |objects| && VegetationOut(names, loadedCgfs, emptyCgfs, transform, objects, k).Err?
    ensures VegetationOut(names, loadedCgfs, emptyCgfs, transform, objects, m) == VegetationOut(names, loadedCgfs, emptyCgfs, transform, objects, k)
    decreases m - k
  {
    if k < m {
      VegetationErrStays(names, loadedCgfs, emptyCgfs, transform, objects, k, m - 1);
    }
  }

  // ---------------------------------------------------------------------------
  // Properties

  /** The conversion keeps the first two bytes of every record, in order: 2 bytes per record. */
  lemma {:induction false} ConvertedKeepsHeights(h: seq<byte>, k: nat, j: nat)
    requires 3 * k <= |h| && j < k
    ensures |ConvertedUpTo(h, k)| == 2 * k
    ensures ConvertedUpTo(h, k)[2 * j] == h[3 * j] && ConvertedUpTo(h, k)[2 * j + 1] == h[3 * j + 1]
  {
    ConvertedLength(h, k - 1);
    if j < k - 1 {
      ConvertedKeepsHeights(h, k - 1, j);
    }
  }

  lemma {:induction false} ConvertedLength(h: seq<byte>, k: nat)
    requires 3 * k <= |h|
    ensures |ConvertedUpTo(h, k)| == 2 * k
  {
    if k > 0 {
      ConvertedLength(h, k - 1);
    }
  }

  /** The converted height of record j is the .h32 loader's height of that record. */
  lemma ConvertedHeight(h: seq<byte>, j: nat)
    requires |h| % 3 == 0 && j < |h| / 3
    ensures |ConvertedUpTo(h, |h| / 3)| == 2 * (|h| / 3) && U16(ConvertedUpTo(h, |h| / 3), 2 * j) == H32Loader.Height(h, j)
  {
    ConvertedKeepsHeights(h, |h| / 3, j);
  }

  /** The cut-out list is strictly ascending and holds exactly the cut-out set, so it is the set in order. */
  lemma {:induction false} CutoutListIsSet(h: seq<byte>, k: nat)
    requires 3 * k <= |h|
    ensures forall i, j :: 0 <= i < j < |CutoutList(h, k)| ==> CutoutList(h, k)[i] < CutoutList(h, k)[j]
    ensures forall x :: x in CutoutList(h, k) <==> x in CutoutsUpTo(h, k)
    ensures |CutoutList(h, k)| == |CutoutsUpTo(h, k)|
  {
    if k > 0 {
      CutoutListIsSet(h, k - 1);
      var prev := CutoutList(h, k - 1);
      assert forall x :: x in prev ==> x < k - 1;
      if h[3 * (k - 1) + 2] == H32Loader.CutoutMaterial {
        var list := prev + [k - 1];
        assert CutoutList(h, k) == list;
        forall i, j | 0 <= i < j < |list|
          ensures list[i] < list[j]
        {
          if j == |list| - 1 {
            assert list[i] == prev[i] && prev[i] in prev;
          } else {
            assert list[i] == prev[i] && list[j] == prev[j];
          }
        }
        assert CutoutsUpTo(h, k) == CutoutsUpTo(h, k - 1) + {k - 1};
        assert k - 1 !in CutoutsUpTo(h, k - 1);
      } else {
        assert CutoutsUpTo(h, k) == CutoutsUpTo(h, k - 1);
      }
    }
  }

  /** The cut-outs of the whole terrain are those the .h32 loader finds. */
  lemma CutoutsAsLoaded(h: seq<byte>)
    requires |h| % 3 == 0
    ensures CutoutsUpTo(h, |h| / 3) == H32Loader.Cutouts(h)
  {
    forall x
      ensures x in CutoutsUpTo(h, |h| / 3) <==> x in H32Loader.Cutouts(h)
    {
      if 0 <= x < |h| / 3 {
        assert H32Loader.Material(h, x) == h[3 * x + 2];
      }
    }
  }

  /** The terrain is dropped for the stub exactly when the .h32 loader finds it flat. */
  lemma {:induction false} ZeroHeightsIsFlat(h: seq<byte>)
    requires |h| % 3 == 0
    ensures ZeroHeights(h, |h| / 3) <==> H32Loader.Flat(h)
  {
    forall j | 0 <= j < |h| / 3
      ensures (h[3 * j] == 0 && h[3 * j + 1] == 0) <==> H32Loader.Height(h, j) == 0
    {
    }
  }

  /**
   * With terrain that converts and is not flat, the file starts with byte 1, the record count
   * len / 3, the converted heights, then the cut-out count.
   */
  lemma TerrainLayout(h: seq<byte>)
    requires |h| % 3 == 0 && !ZeroHeights(h, |h| / 3)
    ensures var out := TerrainPart(false, Some(h)).0;
            var n := |h| / 3;
            !TerrainPart(false, Some(h)).1
            && |out| == 5 + 2 * n + 4 + 4 * |CutoutsUpTo(h, n)|
            && out[0] == 1 && out[1..5] == LEI32(Wrap32(n))
            && out[5..5 + 2 * n] == ConvertedUpTo(h, n)
            && I32(out, 5 + 2 * n) == Wrap32(|CutoutsUpTo(h, n)|)
  {
    var n := |h| / 3;
    var conv := ConvertedUpTo(h, n);
    ConvertedLength(h, n);
    CutoutListIsSet(h, n);
    var out := TerrainPart(false, Some(h)).0;
    var pre := [1] + LEI32(Wrap32(n)) + conv;
    assert out == pre + LEI32(Wrap32(|CutoutList(h, n)|)) + Ints(CutoutList(h, n));
    assert out[..|pre|] == pre;
    I32At(pre, Wrap32(|CutoutList(h, n)|), Ints(CutoutList(h, n)));
  }

  /**
   * Without usable terrain (noH32, no .h32 data, or all heights zero) the file starts with
   * the stub; a length that is not a multiple of 3 leaves only byte 1 and the count.
   */
  lemma TerrainStubOrAbort(noH32: bool, h32: Option<seq<byte>>)
    ensures noH32 || h32.None? ==> TerrainPart(noH32, h32) == (Stub, false)
    ensures !noH32 && h32.Some? && |h32.value| % 3 == 0 && ZeroHeights(h32.value, |h32.value| / 3) ==>
              TerrainPart(noH32, h32) == (Stub, false)
    ensures !noH32 && h32.Some? && |h32.value| % 3 != 0 ==>
              TerrainPart(noH32, h32) == ([1] + LEI32(Wrap32(|h32.value| / 3)), true)
  {
  }

  /** An aborted conversion writes no placements at all. */
  lemma AbortWritesNoMeshes(noH32: bool, h: seq<byte>, brushLst: Option<BrushLists>, names: seq<string>,
                            objects: Option<seq<ObjectsLstLoader.Item>>, loadedCgfs: set<string>, emptyCgfs: set<string>,
                            transform: ObjectsLstLoader.Item -> Transform)
    requires !noH32 && |h| % 3 != 0
    ensures GeoFile(noH32, Some(h), brushLst, names, objects, loadedCgfs, emptyCgfs, transform) == Ok([1] + LEI32(Wrap32(|h| / 3)))
  {
  }

  /** A mesh is skipped alike under any spelling that normalises to the same name. */
  lemma SkipIgnoresSpelling(a: string, b: string, loadedCgfs: set<string>, emptyCgfs: set<string>)
    requires Util.NormalizeMeshFilename(a) == Util.NormalizeMeshFilename(b)
    ensures ShouldSkipMesh(a, loadedCgfs, emptyCgfs) == ShouldSkipMesh(b, loadedCgfs, emptyCgfs)
    ensures ShouldSkipMesh(Util.NormalizeMeshFilename(a), loadedCgfs, emptyCgfs) == ShouldSkipMesh(a, loadedCgfs, emptyCgfs)
  {
    Util.NormalizeMeshFilenameIdempotent(a);
  }

  /** A mesh is kept iff its normalised name was loaded and is not empty. */
  lemma SkipIff(name: string, loadedCgfs: set<string>, emptyCgfs: set<string>)
    ensures !ShouldSkipMesh(name, loadedCgfs, emptyCgfs) <==>
              Util.NormalizeMeshFilename(name) in loadedCgfs - emptyCgfs
  {
  }

  /** Word j of Words(ws) stands at 4j. */
  lemma {:induction false} WordsAt(ws: seq<u32>, j: nat)
    requires j < |ws|
    ensures U32(Words(ws), 4 * j) == ws[j]
    decreases |ws|
  {
    var front := Words(ws[..|ws| - 1]);
    if j == |ws| - 1 {
      U32At(front, ws[j], []);
      assert Words(ws) == front + LE32(ws[j]) + [];
    } else {
      WordsAt(ws[..|ws| - 1], j);
      assert Words(ws)[..|front|] == front;
      assert U32(Words(ws), 4 * j) == U32(front, 4 * j);
    }
  }

  /**
   * A placement record reads back: the short at 0 is the name length, the ASCII name
   * follows, then the 13 floats (position, rotation, scale) and the event byte last.
   */
  lemma RecordReadsBack(name: string, position: Float32.Vec3Bits, rotation: Rotation9, scale: u32, event: byte, j: nat)
    requires j < 13
    ensures var rec := Record(name, position, rotation, scale, event);
            var n := |name|;
            var ws := [position.x, position.y, position.z] + rotation + [scale];
            |rec| == 2 + n + 53
            && U16(rec, 0) == n % 0x1_0000
            && rec[2..2 + n] == AsciiBytes(name)
            && U32(rec, 2 + n + 4 * j) == ws[j]
            && rec[|rec| - 1] == event
  {
    var nb := AsciiBytes(name);
    var ws := [position.x, position.y, position.z] + rotation + [scale];
    var rec := Record(name, position, rotation, scale, event);
    var head := LE16(|nb| % 0x1_0000) + nb;
    assert rec == head + Words(ws) + [event];
    U16At([], |nb| % 0x1_0000, nb + Words(ws) + [event]);
    assert rec == [] + LE16(|nb| % 0x1_0000) + (nb + Words(ws) + [event]);
    WordsAt(ws, j);
    assert rec[|head|..|head| + 4 * |ws|] == Words(ws);
    assert U32(rec, |head| + 4 * j) == U32(Words(ws), 4 * j);
  }

  /** ASCII names are written byte for byte; anything else becomes '?'. */
  lemma AsciiNames(s: string, i: nat)
    requires i < |s|
    ensures s[i] as int < 0x80 ==> AsciiBytes(s)[i] == s[i] as int
    ensures s[i] as int >= 0x80 ==> AsciiBytes(s)[i] == 0x3F
  {
  }

  /** A brush record carries scale 1.0 and the brush's event; a vegetation record its scale and event 0. */
  lemma ScaleAndEvent(lists: BrushLists, loadedCgfs: set<string>, emptyCgfs: set<string>, e: BrushLstLoader.BrushEntry,
                      names: seq<string>, transform: ObjectsLstLoader.Item -> Transform, obj: ObjectsLstLoader.Item)
    ensures var b := BrushBytes(lists, loadedCgfs, emptyCgfs, e);
            b.Ok? && b.value != [] ==>
              var name := lists.infos[e.meshIdx].filename;
              U32(b.value, 2 + |name| + 48) == Float32.One && b.value[|b.value| - 1] == e.eventType
    ensures var v := VegetationBytes(names, loadedCgfs, emptyCgfs, transform, obj);
            v.Ok? && v.value != [] ==>
              var name := names[obj.objectId];
              U32(v.value, 2 + |name| + 48) == obj.scale && v.value[|v.value| - 1] == 0
  {
    var b := BrushBytes(lists, loadedCgfs, emptyCgfs, e);
    if b.Ok? && b.value != [] {
      var name := lists.infos[e.meshIdx].filename;
      RecordReadsBack(name, e.position, BrushRotation(e.rotation), Float32.One, e.eventType, 12);
    }
    var v := VegetationBytes(names, loadedCgfs, emptyCgfs, transform, obj);
    if v.Ok? && v.value != [] {
      var name := names[obj.objectId];
      var t := transform(obj);
      RecordReadsBack(name, t.position, t.rotation, obj.scale, 0, 12);
    }
  }
}
