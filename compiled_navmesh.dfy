/// The compiled navigation mesh of one connected subgraph: a row-major grid with
/// one 32-bit word per block and a shared byte buffer for blocks with several floors.
///
/// A grid word holds the number of floors in its top byte. With one floor, bits 16-23
/// are the floor's direction flags and the low 16 bits its encoded height; with more,
/// the low 24 bits are the offset of the first (flags, height low, height high)
/// triple in the buffer.
module CompiledNavMesh {
  import opened Outcome
  import opened Bytes
  import opened Cursor
  import Float32
  import NavMeshUtil
  import CsMath
  import opened Repeated

  /** The first word of a saved mesh, "NavM" read little-endian. */
  const Magic: u32 := 0x4D76_614E
  /** The first word of a saved set of meshes, "AL40" read little-endian. */
  const SetMagic: u32 := 0x3034_4C41

  /** One floor of a block: its blocked directions and its encoded height. */
  datatype Entry = Entry(flags: byte, encZ: u16)

  /** A node of the path search: a block and one of its floors. */
  datatype NodeId = NodeId(blockIndex: int, encZ: u16, flags: byte)

  /** The "no node" result of the queries. */
  const NoNode := NodeId(-1, 0, 0xFF)

  /** default(NodeId), which the path search records as the predecessor of its start. */
  const DefaultNode := NodeId(0, 0, 0)

  /**
   * The stored state of a CompiledNavMesh. The four floats are kept as their IEEE-754
   * words; x2 and y2, which the source computes from them, are functions below.
   */
  datatype Mesh = Mesh(
    blockWidth: u16, blockHeight: u16,
    step: u32, maxZStep: u32, x1: u32, y1: u32,
    z1: i32, z2: i32,
    grid: seq<u32>, multiheights: seq<byte>)

  /** The shape every mesh has: a non-empty grid holding one word per block. */
  predicate WellFormed(m: Mesh)
  {
    m.blockWidth > 0 && m.blockHeight > 0 && |m.grid| == m.blockWidth * m.blockHeight
  }

  /**
   * The constructor: Convert.ToUInt16 of the block width and height throws unless
   * both fit in 16 bits.
   */
  function Create(blockWidth: int, blockHeight: int, step: u32, maxZStep: u32, x1: u32, y1: u32,
                  z1: i32, z2: i32, grid: seq<u32>, multiheights: seq<byte>): (r: Result<Mesh>)
    ensures r.Ok? <==> 0 <= blockWidth < 0x1_0000 && 0 <= blockHeight < 0x1_0000
    ensures r.Ok? ==> (r.value.blockWidth == blockWidth && r.value.blockHeight == blockHeight
                       && r.value.grid == grid && r.value.multiheights == multiheights
                       && r.value.step == step && r.value.maxZStep == maxZStep
                       && r.value.x1 == x1 && r.value.y1 == y1 && r.value.z1 == z1 && r.value.z2 == z2)
  {
    if !(0 <= blockWidth < 0x1_0000 && 0 <= blockHeight < 0x1_0000) then
      Err("value was either too large or too small for a UInt16")
    else
      Ok(Mesh(blockWidth, blockHeight, step, maxZStep, x1, y1, z1, z2, grid, multiheights))
  }

  // ---------------------------------------------------------------------------
  // Grid words and their entries

  /** The number of floors of a block: the top byte of its word. */
  function FloorCount(w: u32): (c: nat)
    ensures c < 0x100 && c * 0x100_0000 <= w < (c + 1) * 0x100_0000
  {
    w / 0x100_0000
  }

  /** The low 24 bits: the buffer offset of a block with several floors. */
  function Offset(w: u32): (o: nat)
    ensures o < 0x100_0000 && w == FloorCount(w) * 0x100_0000 + o
  {
    w % 0x100_0000
  }

  /** Entry.UnpackSingleEntry: flags from bits 16-23, height from the low 16 bits. */
  function UnpackSingleEntry(w: u32): (e: Entry)
    ensures w % 0x100_0000 == e.flags * 0x1_0000 + e.encZ
  {
    Entry((w / 0x1_0000) % 0x100, w % 0x1_0000)
  }

  /** Entry.UnpackMultiEntry: the triple at an offset of the buffer. */
  function UnpackMultiEntry(hs: seq<byte>, index: nat): (e: Entry)
    requires index + 3 <= |hs|
    ensures hs[index..index + 3] == [e.flags, e.encZ % 0x100, e.encZ / 0x100]
  {
    Entry(hs[index], U16(hs, index + 1))
  }

  /** Whether entry k of a block's word can be read from the buffer. */
  predicate EntryReadable(hs: seq<byte>, w: u32, k: nat)
  {
    FloorCount(w) == 1 || Offset(w) + 3 * k + 3 <= |hs|
  }

  /** Entry k of a block: the inline entry, or triple k of its buffer range. */
  function EntryAt(hs: seq<byte>, w: u32, k: nat): Entry
    requires k < FloorCount(w) && EntryReadable(hs, w, k)
  {
    if FloorCount(w) == 1 then UnpackSingleEntry(w) else UnpackMultiEntry(hs, Offset(w) + 3 * k)
  }

  /** Every entry of a block can be read. */
  predicate AllReadable(hs: seq<byte>, w: u32)
  {
    FloorCount(w) <= 1 || Offset(w) + 3 * FloorCount(w) <= |hs|
  }

  /** The floors stored for a block, in order. */
  function CellEntries(hs: seq<byte>, w: u32): (es: seq<Entry>)
    requires AllReadable(hs, w)
    ensures |es| == FloorCount(w)
    ensures forall k :: 0 <= k < |es| ==> EntryReadable(hs, w, k) && es[k] == EntryAt(hs, w, k)
  {
    seq(FloorCount(w), k requires 0 <= k < FloorCount(w) => EntryAt(hs, w, k))
  }

  /**
   * The entries a walk over a block hands to its callback: entries 0, 1, ... in order,
   * each but the last one accepted by the callback, ending at the last entry or at
   * the first one the callback rejects. A single inline entry is always handed over
   * alone, whatever the callback answers.
   */
  predicate Visited(hs: seq<byte>, w: u32, keepGoing: Entry -> bool, v: seq<Entry>)
  {
    |v| <= FloorCount(w)
    && (forall k :: 0 <= k < |v| ==> EntryReadable(hs, w, k) && v[k] == EntryAt(hs, w, k))
    && (forall k :: 0 <= k < |v| - 1 ==> keepGoing(v[k]))
    && (|v| == FloorCount(w) || (|v| > 0 && !keepGoing(v[|v| - 1])))
  }

  /**
   * A walk over a block fails when it reaches a triple past the end of the buffer:
   * the block's range overruns the buffer and the callback accepted every entry
   * before the overrun.
   */
  predicate WalkFails(hs: seq<byte>, w: u32, keepGoing: Entry -> bool)
  {
    FloorCount(w) > 1 && Offset(w) + 3 * FloorCount(w) > |hs|
    && forall k :: 0 <= k < FloorCount(w) && Offset(w) + 3 * k + 3 <= |hs| ==> keepGoing(EntryAt(hs, w, k))
  }

  /**
   * ForeachHeightAtIndex: calls keepGoing on the block's entries in order and stops at
   * the first one for which it answers false. The result is the sequence of entries
   * the callback saw. An index outside the grid, or a triple outside the buffer,
   * throws IndexOutOfRangeException.
   */
  method ForeachHeightAtIndex(m: Mesh, blockIndex: int, keepGoing: Entry -> bool) returns (r: Result<seq<Entry>>)
    ensures !(0 <= blockIndex < |m.grid|) ==> r == Err(IndexOutOfRange)
    ensures 0 <= blockIndex < |m.grid| ==>
              (r.Ok? <==> !WalkFails(m.multiheights, m.grid[blockIndex], keepGoing))
    ensures r.Ok? ==> (0 <= blockIndex < |m.grid|
                       && Visited(m.multiheights, m.grid[blockIndex], keepGoing, r.value))
  {
    if !(0 <= blockIndex < |m.grid|) {
      return Err(IndexOutOfRange);
    }
    var hs := m.multiheights;
    var w := m.grid[blockIndex];
    var count := FloorCount(w);
    if count == 1 {
      return Ok([UnpackSingleEntry(w)]);
    }
    var visited: seq<Entry> := [];
    if count > 1 {
      var index := Offset(w);
      var i := 0;
      while i < count
        invariant 0 <= i <= count && index == Offset(w) + 3 * i && |visited| == i
        invariant forall k :: 0 <= k < i ==> EntryReadable(hs, w, k) && visited[k] == EntryAt(hs, w, k)
        invariant forall k :: 0 <= k < i ==> keepGoing(visited[k])
      {
        if index + 3 > |hs| {
          return Err(IndexOutOfRange);
        }
        var entry := UnpackMultiEntry(hs, index);
        if !keepGoing(entry) {
          assert EntryReadable(hs, w, i) && EntryAt(hs, w, i) == entry;
          return Ok(visited + [entry]);
        }
        visited := visited + [entry];
        i, index := i + 1, index + 3;
      }
      assert EntryReadable(hs, w, count - 1);
    }
    return Ok(visited);
  }

  /** A walk never fails when the block's whole range lies in the buffer. */
  lemma ReadableWalkSucceeds(hs: seq<byte>, w: u32, keepGoing: Entry -> bool)
    requires AllReadable(hs, w)
    ensures !WalkFails(hs, w, keepGoing)
  {
  }

  /**
   * When the callback always continues, the walk sees exactly the stored entries.
   */
  lemma {:induction false} VisitAllIsCellEntries(hs: seq<byte>, w: u32, v: seq<Entry>)
    requires AllReadable(hs, w) && Visited(hs, w, e => true, v)
    ensures v == CellEntries(hs, w)
  {
    var es := CellEntries(hs, w);
    assert |v| == |es|;
    forall k | 0 <= k < |v| ensures v[k] == es[k] {
    }
  }

  // ---------------------------------------------------------------------------
  // Heights and world coordinates

  /** The height of an entry: DecodeHeight over the mesh's z range. */
  function Height(m: Mesh, encZ: u16): real
  {
    NavMeshUtil.DecodeHeight(m.z1, m.z2, encZ)
  }

  /** The header floats the queries compute with are finite, and the step is positive. */
  predicate QueryReady(m: Mesh)
  {
    WellFormed(m)
    && Float32.IsFinite(m.step) && Float32.IsFinite(m.maxZStep)
    && Float32.IsFinite(m.x1) && Float32.IsFinite(m.y1)
    && Float32.ToReal(m.step) > 0.0
  }

  function Step(m: Mesh): real requires QueryReady(m) { Float32.ToReal(m.step) }
  function MaxZStep(m: Mesh): real requires QueryReady(m) { Float32.ToReal(m.maxZStep) }
  function X1(m: Mesh): real requires QueryReady(m) { Float32.ToReal(m.x1) }
  function Y1(m: Mesh): real requires QueryReady(m) { Float32.ToReal(m.y1) }

  /** m_x2 and m_y2: the far corner of the mesh, x1 + width * step. */
  function X2(m: Mesh): real requires QueryReady(m) { X1(m) + m.blockWidth as real * Step(m) }
  function Y2(m: Mesh): real requires QueryReady(m) { Y1(m) + m.blockHeight as real * Step(m) }

  /** BoundsContainsXY: the half-open world rectangle [x1, x2) x [y1, y2). */
  predicate BoundsContainsXY(m: Mesh, x: real, y: real)
    requires QueryReady(m)
  {
    X1(m) <= x < X2(m) && Y1(m) <= y < Y2(m)
  }

  /**
   * BlockIndexFromWorld: the block whose centre is nearest, found by shifting by half
   * a step and truncating; -1 when that block is outside the grid.
   */
  function BlockIndexFromWorld(m: Mesh, x: real, y: real): (i: int)
    requires QueryReady(m)
    ensures i == -1 || 0 <= i < |m.grid|
    ensures i != -1 ==> BlockXYFromIndex(m, i)
                        == NavMeshUtil.Point(CsMath.Truncate((x + Step(m) / 2.0 - X1(m)) / Step(m)),
                                             CsMath.Truncate((y + Step(m) / 2.0 - Y1(m)) / Step(m)))
  {
    var half := Step(m) / 2.0;
    var bX := CsMath.Truncate((x + half - X1(m)) / Step(m));
    var bY := CsMath.Truncate((y + half - Y1(m)) / Step(m));
    if bX < 0 || bX >= m.blockWidth then -1
    else if bY < 0 || bY >= m.blockHeight then -1
    else
      IndexOfXY(m.blockWidth, m.blockHeight, bX, bY);
      var i := bY * m.blockWidth + bX;
      SameRowCol(m.blockWidth, bX, bY, BlockXYFromIndex(m, i).x, BlockXYFromIndex(m, i).y);
      i
  }

  lemma IndexOfXY(w: nat, h: nat, bX: nat, bY: nat)
    requires bX < w && bY < h
    ensures 0 <= bY * w + bX < w * h
  {
    MulLe(bY, h - 1, w);
    assert (h - 1) * w + w == h * w;
  }

  lemma MulLe(a: nat, b: nat, c: nat)
    requires a <= b
    ensures a * c <= b * c
  {
  }

  /** A block index has one column and row. */
  lemma SameRowCol(w: nat, x1: int, y1: int, x2: int, y2: int)
    requires 0 <= x1 < w && 0 <= x2 < w && y1 * w + x1 == y2 * w + x2
    ensures x1 == x2 && y1 == y2
  {
    if y1 > y2 {
      assert (y1 - y2) * w == y1 * w - y2 * w;
      MulLe(1, y1 - y2, w);
    } else if y1 < y2 {
      assert (y2 - y1) * w == y2 * w - y1 * w;
      MulLe(1, y2 - y1, w);
    }
  }

  /** BlockXYFromIndex: C#'s i % width and i / width. */
  function BlockXYFromIndex(m: Mesh, i: int): (p: NavMeshUtil.Point)
    requires m.blockWidth > 0
    ensures i == p.y * m.blockWidth + p.x
    ensures 0 <= i ==> 0 <= p.x < m.blockWidth && 0 <= p.y
    ensures 0 <= i < m.blockWidth * m.blockHeight ==> p.y < m.blockHeight
  {
    var p := NavMeshUtil.Point(CsMath.Rem(i, m.blockWidth), CsMath.Div(i, m.blockWidth));
    assert 0 <= i < m.blockWidth * m.blockHeight ==> p.y < m.blockHeight by {
      if 0 <= i < m.blockWidth * m.blockHeight {
        RowBelow(p.y, p.x, m.blockWidth, m.blockHeight);
      }
    }
    p
  }

  lemma RowBelow(q: int, r: int, w: nat, h: nat)
    requires w > 0 && r >= 0 && q * w + r < w * h
    ensures q < h
  {
  }

  /** WorldFromBlockIndex: the world x and y of a block, x1 + bX * step. */
  function WorldFromBlockIndex(m: Mesh, i: int, passthroughZ: real): (v: (real, real, real))
    requires QueryReady(m)
    ensures v.2 == passthroughZ
  {
    var b := BlockXYFromIndex(m, i);
    (X1(m) + b.x as real * Step(m), Y1(m) + b.y as real * Step(m), passthroughZ)
  }

  /** WorldPointFromNode: the world position of a node's block at its floor's height. */
  function WorldPointFromNode(m: Mesh, n: NodeId): (v: (real, real, real))
    requires QueryReady(m)
    ensures v.2 == Height(m, n.encZ)
  {
    WorldFromBlockIndex(m, n.blockIndex, Height(m, n.encZ))
  }

  // ---------------------------------------------------------------------------
  // Floor queries

  /** Entries above z are skipped bY FindFloorUnderPoint's callback. */
  predicate AboveZ(m: Mesh, z: real, e: Entry)
  {
    Height(m, e.encZ) > z
  }

  /** Entry k of block i is the first entry of the block not above z. */
  predicate FirstFloorNotAbove(m: Mesh, i: int, z: real, k: nat)
  {
    0 <= i < |m.grid| && k < FloorCount(m.grid[i]) && EntryReadable(m.multiheights, m.grid[i], k)
    && !AboveZ(m, z, EntryAt(m.multiheights, m.grid[i], k))
    && forall j :: 0 <= j < k ==> AboveZ(m, z, EntryAt(m.multiheights, m.grid[i], j))
  }

  /**
   * FindFloorUnderPoint: in the block under (x, y), the first stored floor that is not
   * above z, provided it lies at most maxFall below z; otherwise the "no node" result.
   */
  method FindFloorUnderPoint(m: Mesh, x: real, y: real, z: real, maxFall: real) returns (r: Result<NodeId>)
    requires QueryReady(m)
    ensures var i := BlockIndexFromWorld(m, x, y);
            i != -1 && AllReadable(m.multiheights, m.grid[i]) ==> r.Ok?
    ensures r.Ok? && r.value != NoNode ==>
              var i := BlockIndexFromWorld(m, x, y);
              r.value.blockIndex == i
              && exists k :: FirstFloorNotAbove(m, i, z, k)
                          && EntryAt(m.multiheights, m.grid[i], k) == Entry(r.value.flags, r.value.encZ)
                          && z - Height(m, r.value.encZ) <= maxFall
    ensures r.Ok? && r.value == NoNode ==>
              forall k :: FirstFloorNotAbove(m, BlockIndexFromWorld(m, x, y), z, k)
                ==> z - Height(m, EntryAt(m.multiheights, m.grid[BlockIndexFromWorld(m, x, y)], k).encZ) > maxFall
  {
    var i := BlockIndexFromWorld(m, x, y);
    if i < 0 {
      return Ok(NoNode);
    }
    var keepGoing := e => AboveZ(m, z, e);
    if AllReadable(m.multiheights, m.grid[i]) {
      ReadableWalkSucceeds(m.multiheights, m.grid[i], keepGoing);
    }
    var visited :- ForeachHeightAtIndex(m, i, keepGoing);
    if |visited| > 0 {
      var e := visited[|visited| - 1];
      var k := |visited| - 1;
      if !AboveZ(m, z, e) {
        assert FirstFloorNotAbove(m, i, z, k);
        if z - Height(m, e.encZ) <= maxFall {
          return Ok(NodeId(i, e.encZ, e.flags));
        }
        FirstFloorIsUnique(m, i, z, k);
      }
    }
    return Ok(NoNode);
  }

  lemma FirstFloorIsUnique(m: Mesh, i: int, z: real, k: nat)
    requires FirstFloorNotAbove(m, i, z, k)
    ensures forall j :: FirstFloorNotAbove(m, i, z, j) ==> j == k
  {
  }

  /** The block a direction leads to, without any check that it lies in the grid. */
  function NeighborIndex(m: Mesh, blockIndex: int, offset: NavMeshUtil.Point): int
  {
    blockIndex + (offset.y * m.blockWidth + offset.x)
  }

  /** An entry farther in height from the start floor than the allowed step (plus 0.5). */
  predicate TooFar(m: Mesh, start: NodeId, e: Entry)
    requires QueryReady(m)
  {
    var d := Height(m, start.encZ) - Height(m, e.encZ);
    (if d < 0.0 then -d else d) > MaxZStep(m) + 0.5
  }

  /** Entry k of block i is the first entry within a step of the start floor. */
  predicate FirstReachable(m: Mesh, start: NodeId, i: int, k: nat)
    requires QueryReady(m)
  {
    0 <= i < |m.grid| && k < FloorCount(m.grid[i]) && EntryReadable(m.multiheights, m.grid[i], k)
    && !TooFar(m, start, EntryAt(m.multiheights, m.grid[i], k))
    && forall j :: 0 <= j < k ==> TooFar(m, start, EntryAt(m.multiheights, m.grid[i], j))
  }

  /**
   * GetNeighbor: the "no node" result when the start floor is blocked in the direction;
   * otherwise the first floor of the neighbouring block within a step of the start
   * floor's height. A direction that is not a single bit, or a neighbour block outside
   * the grid, throws; so does a neighbour block with no floor within a step.
   */
  method GetNeighbor(m: Mesh, start: NodeId, direction: NavMeshUtil.Flags) returns (r: Result<NodeId>)
    requires QueryReady(m)
    ensures Bits(start.flags) & direction != 0 ==> r == Ok(NoNode)
    ensures Bits(start.flags) & direction == 0 && !NavMeshUtil.IsDirection(direction) ==> r.Err?
    ensures r.Ok? && Bits(start.flags) & direction == 0 ==>
              NavMeshUtil.IsDirection(direction)
              && var i := NeighborIndex(m, start.blockIndex, NavMeshUtil.OffsetFromDirectionFlag(direction).value);
                 r.value.blockIndex == i
                 && exists k :: FirstReachable(m, start, i, k)
                             && EntryAt(m.multiheights, m.grid[i], k) == Entry(r.value.flags, r.value.encZ)
    ensures r.Err? && NavMeshUtil.IsDirection(direction) ==>
              var i := NeighborIndex(m, start.blockIndex, NavMeshUtil.OffsetFromDirectionFlag(direction).value);
              !(0 <= i < |m.grid|) || !AllReadable(m.multiheights, m.grid[i])
              || forall k :: 0 <= k < FloorCount(m.grid[i]) ==> !FirstReachable(m, start, i, k)
  {
    if Bits(start.flags) & direction != 0 {
      return Ok(NoNode);
    }
    var offset :- NavMeshUtil.OffsetFromDirectionFlag(direction);
    var i := NeighborIndex(m, start.blockIndex, offset);
    var keepGoing := e => TooFar(m, start, e);
    var visited :- ForeachHeightAtIndex(m, i, keepGoing);
    if |visited| > 0 && !TooFar(m, start, visited[|visited| - 1]) {
      var e := visited[|visited| - 1];
      assert FirstReachable(m, start, i, |visited| - 1);
      return Ok(NodeId(i, e.encZ, e.flags));
    }
    forall k | 0 <= k < FloorCount(m.grid[i]) ensures !FirstReachable(m, start, i, k) {
    }
    return Err("expected to find neighbor");
  }

  /** GetNeighbor(start, offX, offY): the direction of the offset, then the lookup above. */
  method GetNeighborByOffset(m: Mesh, start: NodeId, offX: int, offY: int) returns (r: Result<NodeId>)
    requires QueryReady(m)
    ensures !NavMeshUtil.IsUnitOffset(NavMeshUtil.Point(offX, offY)) ==> r.Err?
    ensures r.Ok? && r.value != NoNode ==>
              var i := NeighborIndex(m, start.blockIndex, NavMeshUtil.Point(offX, offY));
              r.value.blockIndex == i
              && exists k :: FirstReachable(m, start, i, k)
                          && EntryAt(m.multiheights, m.grid[i], k) == Entry(r.value.flags, r.value.encZ)
  {
    var direction :- NavMeshUtil.DetermineDirection(0, 0, offX, offY);
    r := GetNeighbor(m, start, direction);
  }

  // ---------------------------------------------------------------------------
  // Index arithmetic

  /** The block reached from block s in direction d lies in the grid and is block e. */
  predicate IsGridNeighbor(m: Mesh, s: int, e: int, d: NavMeshUtil.Flags)
    requires m.blockWidth > 0
  {
    NavMeshUtil.IsDirection(d)
    && var o := NavMeshUtil.OffsetFromDirectionFlag(d).value;
       var p := BlockXYFromIndex(m, s);
       0 <= p.x + o.x < m.blockWidth && 0 <= p.y + o.y < m.blockHeight
       && e == NeighborIndex(m, s, o)
  }

  /**
   * getDirectionToNeighborByIndex: the direction from block s to block e when e is one
   * of the eight blocks around s, else -1. Blocked flags are not consulted.
   */
  function GetDirectionToNeighborByIndex(m: Mesh, s: int, e: int): (r: int)
    requires WellFormed(m)
    ensures r in {-1, 0x01, 0x02, 0x04, 0x08, 0x10, 0x20, 0x40, 0x80}
  {
    var p := BlockXYFromIndex(m, s);
    var w := m.blockWidth;
    if e < s then
      if p.x > 0 && e == s - 1 then 0x40 // Left
      else if p.y > 0 && e == s - w then 0x10 // Bottom
      else if p.y > 0 && p.x > 0 && e == s - w - 1 then 0x20 // BottomLeft
      else if p.y > 0 && p.x < w - 1 && e == s - w + 1 then 0x08 // BottomRight
      else -1
    else if e > s then
      if p.x < w - 1 && e == s + 1 then 0x04 // Right
      else if p.y < m.blockHeight - 1 && e == s + w then 0x01 // Top
      else if p.y < m.blockHeight - 1 && p.x > 0 && e == s + w - 1 then 0x80 // TopLeft
      else if p.y < m.blockHeight - 1 && p.x < w - 1 && e == s + w + 1 then 0x02 // TopRight
      else -1
    else -1
  }

  /** A direction it returns leads from s to e inside the grid ... */
  lemma DirectionToNeighborIsStep(m: Mesh, s: int, e: int)
    requires WellFormed(m) && 0 <= s < |m.grid|
    requires GetDirectionToNeighborByIndex(m, s, e) != -1
    ensures IsGridNeighbor(m, s, e, GetDirectionToNeighborByIndex(m, s, e) as bv8)
  {
  }

  /** ... and every such step is found. */
  lemma NeighborStepHasDirection(m: Mesh, s: int, e: int, d: NavMeshUtil.Flags)
    requires WellFormed(m) && 0 <= s < |m.grid| && IsGridNeighbor(m, s, e, d)
    ensures GetDirectionToNeighborByIndex(m, s, e) == d as int
  {
    NavMeshUtil.RingIsDirections(d);
  }

  /** NumberOfSetBits: the SWAR population count, here on the bits of a 32-bit int. */
  function NumberOfSetBits(i: bv32): (n: bv32)
  {
    var a := i - ((i >> 1) & 0x5555_5555);
    var b := (a & 0x3333_3333) + ((a >> 2) & 0x3333_3333);
    (((b + (b >> 4)) & 0x0F0F_0F0F) * 0x0101_0101) >> 24
  }

  /** Bit k of a word, as 0 or 1. */
  function Bit(i: bv32, k: bv5): bv32
  {
    (i >> k) & 1
  }

  /** The set bits of a byte-sized word, i.e. the blocked directions of flags, added up one by one. */
  function BitsSet(i: bv32): bv32
  {
    Bit(i, 0) + Bit(i, 1) + Bit(i, 2) + Bit(i, 3) + Bit(i, 4) + Bit(i, 5) + Bit(i, 6) + Bit(i, 7)
  }

  /** On a flags byte the SWAR count is the number of set bits, at most eight. */
  lemma NumberOfSetBitsCounts(i: bv32)
    requires i < 0x100
    ensures NumberOfSetBits(i) == BitsSet(i) <= 8
  {
    NibbleSums(i);
    TopByteOfSpread(BitsSet(i));
  }

  /** The SWAR steps before the multiplication leave the count of a byte in the lowest byte only. */
  lemma NibbleSums(i: bv32)
    requires i < 0x100
    ensures var a := i - ((i >> 1) & 0x5555_5555);
      var b := (a & 0x3333_3333) + ((a >> 2) & 0x3333_3333);
      (b + (b >> 4)) & 0x0F0F_0F0F == BitsSet(i) <= 8
  {
  }

  /** Multiplying a small value by 0x01010101 copies it into the top byte. */
  lemma TopByteOfSpread(c: bv32)
    requires c <= 8
    ensures (c * 0x0101_0101) >> 24 == c
  {
  }

  // ---------------------------------------------------------------------------
  // Save and Load

  /** The little-endian words of the grid. */
  function Words(g: seq<u32>): (s: seq<byte>)
    ensures |s| == 4 * |g|
  {
    if g == [] then [] else LE32(g[0]) + Words(g[1..])
  }

  /** The fixed fields of a saved mesh, in file order after the magic. */
  datatype Header = Header(blockWidth: u16, blockHeight: u16, step: u32, maxZStep: u32,
                           x1: u32, y1: u32, z1: i32, z2: i32)

  function HeaderOf(m: Mesh): Header
  {
    Header(m.blockWidth, m.blockHeight, m.step, m.maxZStep, m.x1, m.y1, m.z1, m.z2)
  }

  /** The mesh with a header's fields, a grid and a buffer. */
  function WithHeader(h: Header, grid: seq<u32>, multiheights: seq<byte>): (m: Mesh)
    ensures HeaderOf(m) == h && m.grid == grid && m.multiheights == multiheights
  {
    Mesh(h.blockWidth, h.blockHeight, h.step, h.maxZStep, h.x1, h.y1, h.z1, h.z2, grid, multiheights)
  }

  /** The first 32 bytes Save writes: the magic and the header fields. */
  function EncodeHeader(h: Header): (s: seq<byte>)
    ensures |s| == 32
  {
    LE32(Magic) + LE16(h.blockWidth) + LE16(h.blockHeight)
    + LE32(h.step) + LE32(h.maxZStep) + LE32(h.x1) + LE32(h.y1)
    + LEI32(h.z1) + LEI32(h.z2)
  }

  /** The buffer length is written as an int. */
  predicate Saveable(m: Mesh)
  {
    |m.multiheights| < 0x8000_0000
  }

  /** The bytes Save writes. */
  function Encode(m: Mesh): (s: seq<byte>)
    requires Saveable(m)
    ensures |s| == 36 + 4 * |m.grid| + |m.multiheights|
  {
    EncodeHeader(HeaderOf(m)) + Words(m.grid) + LEI32(|m.multiheights|) + m.multiheights
  }

  /** Save: the header fields in order, the grid words, the buffer length and the buffer. */
  method Save(m: Mesh) returns (s: seq<byte>)
    requires Saveable(m)
    ensures s == Encode(m)
  {
    s := LE32(Magic) + LE16(m.blockWidth) + LE16(m.blockHeight)
      + LE32(m.step) + LE32(m.maxZStep) + LE32(m.x1) + LE32(m.y1)
      + LEI32(m.z1) + LEI32(m.z2);
    var i := 0;
    while i < |m.grid|
      invariant 0 <= i <= |m.grid|
      invariant s == EncodeHeader(HeaderOf(m)) + Words(m.grid[..i])
    {
      WordsAppend(m.grid[..i], m.grid[i]);
      assert m.grid[..i + 1] == m.grid[..i] + [m.grid[i]];
      s := s + LE32(m.grid[i]);
      i := i + 1;
    }
    assert m.grid[..i] == m.grid;
    s := s + LEI32(|m.multiheights|) + m.multiheights;
  }

  lemma {:induction false} WordsAppend(g: seq<u32>, w: u32)
    ensures Words(g + [w]) == Words(g) + LE32(w)
  {
    if g == [] {
      assert g + [w] == [w];
    } else {
      assert (g + [w])[1..] == g[1..] + [w];
      WordsAppend(g[1..], w);
    }
  }

  /**
   * The header checks of Load. A NaN compares false with everything, so a NaN step
   * passes them; the "bad z step" check reads step, not maxZStep.
   */
  predicate HeaderAccepted(h: Header)
  {
    h.blockWidth != 0 && h.blockHeight != 0
    && !Float32.Less(h.step, Float32.PointOne)
    && !(Float32.Less(h.step, Float32.Zero) || Float32.Less(Float32.Sixteen, h.step))
    && !(Float32.Less(h.x1, Float32.Zero) || Float32.Less(h.y1, Float32.Zero))
  }

  /** A mesh that Load reads back from its own saved bytes. */
  predicate Loadable(m: Mesh)
  {
    HeaderAccepted(HeaderOf(m)) && |m.grid| == m.blockWidth * m.blockHeight
    && m.blockWidth * m.blockHeight < 0x8000_0000
  }

  /** The header Load reads at position p, with each check at the point the source makes it. */
  function DecodeHeader(d: seq<byte>, p: nat): Result<Header>
  {
    if p + 4 > |d| then Err(EndOfStream)
    else if I32(d, p) != Magic then Err("invalid file format - expected CompiledNavMesh header")
    else if p + 8 > |d| then Err(EndOfStream)
    else if U16(d, p + 4) == 0 || U16(d, p + 6) == 0 then Err("bad block size")
    else if p + 12 > |d| then Err(EndOfStream)
    else if Float32.Less(U32(d, p + 8), Float32.PointOne) then Err("bad step range")
    else if p + 16 > |d| then Err(EndOfStream)
    else if Float32.Less(U32(d, p + 8), Float32.Zero) || Float32.Less(Float32.Sixteen, U32(d, p + 8)) then
      Err("bad z step")
    else if p + 24 > |d| then Err(EndOfStream)
    else if Float32.Less(U32(d, p + 16), Float32.Zero) || Float32.Less(U32(d, p + 20), Float32.Zero) then
      Err("bad xy min")
    else if p + 32 > |d| then Err(EndOfStream)
    else
      Ok(Header(U16(d, p + 4), U16(d, p + 6), U32(d, p + 8), U32(d, p + 12),
                U32(d, p + 16), U32(d, p + 20), I32(d, p + 24), I32(d, p + 28)))
  }

  /** n words read one after another from position p. */
  function ReadWords(d: seq<byte>, p: nat, n: nat): (g: seq<u32>)
    requires p + 4 * n <= |d|
    ensures |g| == n && forall k :: 0 <= k < n ==> g[k] == U32(d, p + 4 * k)
    decreases n
  {
    if n == 0 then [] else [U32(d, p)] + ReadWords(d, p + 4, n - 1)
  }

  /**
   * What Load reads from position p: the mesh and the position after it.
   * BinaryReader.ReadBytes hands back fewer bytes than asked for at the end of the
   * stream, and throws for a negative count.
   */
  function DecodeMesh(d: seq<byte>, p: nat): Result<(Mesh, nat)>
  {
    DecodeHeaderAccepted(d, p);
    match DecodeHeader(d, p)
    case Err(e) => Err(e)
    case Ok(h) => DecodeBody(d, p + 32, h)
  }

  /** A header DecodeHeader returns has passed every check and was read from 32 bytes in the stream. */
  lemma DecodeHeaderAccepted(d: seq<byte>, p: nat)
    ensures var r := DecodeHeader(d, p); r.Ok? ==> HeaderAccepted(r.value) && p + 32 <= |d|
  {
  }

  /** A mesh DecodeMesh returns has an accepted header, a full grid and ends within the stream. */
  lemma DecodeMeshShape(d: seq<byte>, p: nat)
    ensures var r := DecodeMesh(d, p);
      r.Ok? ==> HeaderAccepted(HeaderOf(r.value.0)) && WellFormed(r.value.0)
                && p + 36 + 4 * |r.value.0.grid| <= r.value.1 <= |d|
  {
    DecodeHeaderAccepted(d, p);
    if DecodeHeader(d, p).Ok? {
      DecodeBodyShape(d, p + 32, DecodeHeader(d, p).value);
    }
  }

  lemma SizeProductBound(a: u16, b: u16)
    ensures a * b < 0x1_0000_0000
  {
    assert a * b <= 0xFFFF * b <= 0xFFFF * 0xFFFF;
  }

  /**
   * The grid count Load computes: the product of the two 16-bit sizes held in a 32-bit
   * int, which comes out negative from 2^31 blocks on.
   */
  function GridCount(h: Header): (n: i32)
    ensures n >= 0 <==> h.blockWidth * h.blockHeight < 0x8000_0000
    ensures n >= 0 ==> n == h.blockWidth * h.blockHeight
    ensures n < 0 ==> n == h.blockWidth * h.blockHeight - 0x1_0000_0000
  {
    SizeProductBound(h.blockWidth, h.blockHeight);
    Wrap32(h.blockWidth * h.blockHeight)
  }

  /**
   * What follows the header h from position q: the grid, the buffer length and the buffer.
   * A negative grid count makes the grid allocation throw before anything is read.
   */
  function DecodeBody(d: seq<byte>, q: nat, h: Header): Result<(Mesh, nat)>
    requires HeaderAccepted(h)
  {
    if GridCount(h) < 0 then Err(Overflow)
    else
    var n: nat := GridCount(h);
    if q + 4 + 4 * n > |d| then Err(EndOfStream)
    else
      var count := I32(d, q + 4 * n);
      if count < 0 then Err("count is negative")
      else
        var start := q + 4 + 4 * n;
        var end: nat := Min(start + count, |d|);
        Ok((WithHeader(h, ReadWords(d, q, n), Span(d, start, end)), end))
  }
  /** A mesh DecodeBody returns has the header given, a full grid and ends within the stream. */
  lemma DecodeBodyShape(d: seq<byte>, q: nat, h: Header)
    requires HeaderAccepted(h)
    ensures var r := DecodeBody(d, q, h);
      r.Ok? ==> HeaderOf(r.value.0) == h && WellFormed(r.value.0)
                && q + 4 + 4 * |r.value.0.grid| <= r.value.1 <= |d|
  {
  }


  /** The magic and header reads of Load, with their checks. */
  method LoadHeader(d: seq<byte>, p: nat) returns (r: Result<Header>, q: nat)
    ensures r == DecodeHeader(d, p)
    ensures r.Ok? ==> q == p + 32
  {
    q := p;
    var magic;
    magic, q :- ReadI32(d, q);
    if magic != Magic {
      return Err("invalid file format - expected CompiledNavMesh header"), q;
    }
    var w, h;
    w, q :- ReadU16(d, q);
    h, q :- ReadU16(d, q);
    if w == 0 || h == 0 {
      return Err("bad block size"), q;
    }
    var step, maxZStep, x1, y1;
    step, q :- ReadF32(d, q);
    if Float32.Less(step, Float32.PointOne) {
      return Err("bad step range"), q;
    }
    maxZStep, q :- ReadF32(d, q);
    if Float32.Less(step, Float32.Zero) || Float32.Less(Float32.Sixteen, step) {
      return Err("bad z step"), q;
    }
    x1, q :- ReadF32(d, q);
    y1, q :- ReadF32(d, q);
    if Float32.Less(x1, Float32.Zero) || Float32.Less(y1, Float32.Zero) {
      return Err("bad xy min"), q;
    }
    var z1, z2;
    z1, q :- ReadI32(d, q);
    z2, q :- ReadI32(d, q);
    r := Ok(Header(w, h, step, maxZStep, x1, y1, z1, z2));
  }

  /** Load: the header, then the rest. */
  method Load(d: seq<byte>, p: nat) returns (r: Result<Mesh>, q: nat)
    ensures r.Ok? <==> DecodeMesh(d, p).Ok?
    ensures r.Ok? ==> (r.value, q) == DecodeMesh(d, p).value
    ensures r.Err? ==> r.error == DecodeMesh(d, p).error
  {
    var header;
    header, q :- LoadHeader(d, p);
    r, q := LoadBody(d, q, header);
  }

  /** The grid words, the buffer length and the buffer, after the header. */
  method LoadBody(d: seq<byte>, p: nat, header: Header) returns (r: Result<Mesh>, q: nat)
    requires HeaderAccepted(header) && p <= |d|
    ensures r.Ok? <==> DecodeBody(d, p, header).Ok?
    ensures r.Ok? ==> DecodeBody(d, p, header) == Ok((r.value, q))
    ensures r.Err? ==> r.error == DecodeBody(d, p, header).error
  {
    var n := GridCount(header);
    DecodeBodyOkIff(d, p, header);
    if n < 0 {
      return Err(Overflow), p;
    }
    var grid;
    grid, q :- LoadGrid(d, p, n);
    var count;
    count, q :- ReadI32(d, q);
    var heights;
    heights, q :- ReadBytes(d, q, count);
    DecodeBodyOk(d, p, header);
    r := Ok(WithHeader(header, grid, heights));
  }

  /**
   * DecodeBody succeeds exactly when the grid count is below 2^31, the grid and the
   * buffer length are there and the length is not negative; from 2^31 blocks on it is
   * the overflow.
   */
  lemma DecodeBodyOkIff(d: seq<byte>, q: nat, h: Header)
    requires HeaderAccepted(h)
    ensures var n := h.blockWidth * h.blockHeight;
      DecodeBody(d, q, h).Ok? <==> n < 0x8000_0000 && q + 4 + 4 * n <= |d| && I32(d, q + 4 * n) >= 0
    ensures h.blockWidth * h.blockHeight >= 0x8000_0000 ==> DecodeBody(d, q, h) == Err(Overflow)
  {
  }

  /** DecodeBody where the grid and a non-negative buffer length are there to read. */
  lemma DecodeBodyOk(d: seq<byte>, q: nat, h: Header)
    requires HeaderAccepted(h)
    requires var n := h.blockWidth * h.blockHeight; n < 0x8000_0000 && q + 4 + 4 * n <= |d| && I32(d, q + 4 * n) >= 0
    ensures var n := h.blockWidth * h.blockHeight;
      var start := q + 4 + 4 * n;
      var end := Min(start + I32(d, q + 4 * n), |d|);
      DecodeBody(d, q, h) == Ok((WithHeader(h, ReadWords(d, q, n), d[start..end]), end))
  {
    var n := h.blockWidth * h.blockHeight;
    var start := q + 4 + 4 * n;
    SpanIsSlice(d, start, Min(start + I32(d, q + 4 * n), |d|));
  }

  /** The loop of Load that reads the grid, one word per block. */
  method LoadGrid(d: seq<byte>, p: nat, n: nat) returns (r: Result<seq<u32>>, q: nat)
    requires p <= |d|
    ensures r.Ok? <==> p + 4 * n <= |d|
    ensures r.Err? ==> r == Err(EndOfStream)
    ensures r.Ok? ==> r.value == ReadWords(d, p, n) && q == p + 4 * n
  {
    var grid: seq<u32> := [];
    var i := 0;
    q := p;
    while i < n
      invariant 0 <= i <= n && q == p + 4 * i <= |d| && |grid| == i
      invariant forall k :: 0 <= k < i ==> grid[k] == U32(d, p + 4 * k)
    {
      var g;
      g, q :- ReadU32(d, q);
      grid := grid + [g];
      i := i + 1;
    }
    assert grid == ReadWords(d, p, n);
    return Ok(grid), q;
  }

  /** DecodeHeader from the value each header field reads as. */
  lemma DecodeHeaderOf(d: seq<byte>, p: nat, h: Header)
    requires HeaderAccepted(h) && p + 32 <= |d|
    requires I32(d, p) == Magic && U16(d, p + 4) == h.blockWidth && U16(d, p + 6) == h.blockHeight
    requires U32(d, p + 8) == h.step && U32(d, p + 12) == h.maxZStep
    requires U32(d, p + 16) == h.x1 && U32(d, p + 20) == h.y1
    requires I32(d, p + 24) == h.z1 && I32(d, p + 28) == h.z2
    ensures DecodeHeader(d, p) == Ok(h)
  {
  }

  /** Where each field sits in the saved header. */
  lemma EncodeHeaderFields(h: Header)
    ensures EncodeHeader(h)[0..4] == LEI32(Magic)
    ensures EncodeHeader(h)[4..6] == LE16(h.blockWidth) && EncodeHeader(h)[6..8] == LE16(h.blockHeight)
    ensures EncodeHeader(h)[8..12] == LE32(h.step) && EncodeHeader(h)[12..16] == LE32(h.maxZStep)
    ensures EncodeHeader(h)[16..20] == LE32(h.x1) && EncodeHeader(h)[20..24] == LE32(h.y1)
    ensures EncodeHeader(h)[24..28] == LEI32(h.z1) && EncodeHeader(h)[28..32] == LEI32(h.z2)
  {
  }

  /** A saved header reads back as itself wherever it stands. */
  lemma LoadSavedHeader(d: seq<byte>, p: nat, h: Header)
    requires HeaderAccepted(h) && StandsAt(d, p, EncodeHeader(h))
    ensures DecodeHeader(d, p) == Ok(h)
  {
    var e := EncodeHeader(h);
    EncodeHeaderFields(h);
    PartAt(d, p, e, 0, 4);
    I32Encoded(d, p, Magic);
    PartAt(d, p, e, 4, 6);
    U16Encoded(d, p + 4, h.blockWidth);
    PartAt(d, p, e, 6, 8);
    U16Encoded(d, p + 6, h.blockHeight);
    PartAt(d, p, e, 8, 12);
    U32Encoded(d, p + 8, h.step);
    PartAt(d, p, e, 12, 16);
    U32Encoded(d, p + 12, h.maxZStep);
    PartAt(d, p, e, 16, 20);
    U32Encoded(d, p + 16, h.x1);
    PartAt(d, p, e, 20, 24);
    U32Encoded(d, p + 20, h.y1);
    PartAt(d, p, e, 24, 28);
    I32Encoded(d, p + 24, h.z1);
    PartAt(d, p, e, 28, 32);
    I32Encoded(d, p + 28, h.z2);
    DecodeHeaderOf(d, p, h);
  }

  lemma {:induction false} LoadSavedWords(d: seq<byte>, p: nat, g: seq<u32>)
    requires StandsAt(d, p, Words(g))
    ensures forall k :: 0 <= k < |g| ==> U32(d, p + 4 * k) == g[k]
    decreases |g|
  {
    if g != [] {
      var e := Words(g);
      assert e == LE32(g[0]) + Words(g[1..]);
      PartAt(d, p, e, 0, 4);
      U32Encoded(d, p, g[0]);
      PartAt(d, p, e, 4, |e|);
      assert e[4..|e|] == Words(g[1..]);
      LoadSavedWords(d, p + 4, g[1..]);
      forall k | 0 < k < |g| ensures U32(d, p + 4 * k) == g[k] {
        assert p + 4 * k == p + 4 + 4 * (k - 1);
        assert g[k] == g[1..][k - 1];
      }
    }
  }

  /** Where each part sits in a saved mesh. */
  lemma EncodeParts(m: Mesh)
    requires Saveable(m)
    ensures var e := Encode(m); var n := |m.grid|;
            e[0..32] == EncodeHeader(HeaderOf(m)) && e[32..32 + 4 * n] == Words(m.grid)
            && e[32 + 4 * n..36 + 4 * n] == LEI32(|m.multiheights|) && e[36 + 4 * n..] == m.multiheights
  {
    var eh, eg, ec, hs := EncodeHeader(HeaderOf(m)), Words(m.grid), LEI32(|m.multiheights|), m.multiheights;
    Parts4(eh, eg, ec, hs);
  }

  lemma Parts4(a: seq<byte>, b: seq<byte>, c: seq<byte>, e: seq<byte>)
    ensures var s := a + b + c + e;
            s[0..|a|] == a && s[|a|..|a| + |b|] == b
            && s[|a| + |b|..|a| + |b| + |c|] == c && s[|a| + |b| + |c|..] == e
  {
    var s := a + b + c + e;
    assert s[0..|a|] == a;
    assert s[|a|..|a| + |b|] == b;
    assert s[|a| + |b|..|a| + |b| + |c|] == c;
    assert s[|a| + |b| + |c|..] == e;
  }

  /** DecodeMesh from the facts each part of a saved mesh contributes. */
  lemma DecodeMeshOf(d: seq<byte>, p: nat, m: Mesh)
    requires Loadable(m)
    requires DecodeHeader(d, p) == Ok(HeaderOf(m))
    requires p + 36 + 4 * |m.grid| + |m.multiheights| <= |d|
    requires forall k :: 0 <= k < |m.grid| ==> U32(d, p + 32 + 4 * k) == m.grid[k]
    requires I32(d, p + 32 + 4 * |m.grid|) == |m.multiheights|
    requires d[p + 36 + 4 * |m.grid|..p + 36 + 4 * |m.grid| + |m.multiheights|] == m.multiheights
    ensures DecodeMesh(d, p) == Ok((m, p + 36 + 4 * |m.grid| + |m.multiheights|))
  {
    DecodeBodyOf(d, p + 32, HeaderOf(m), m.grid, m.multiheights);
    assert WithHeader(HeaderOf(m), m.grid, m.multiheights) == m;
  }

  /** DecodeBody from the grid words, the buffer length and the buffer standing at q. */
  lemma DecodeBodyOf(d: seq<byte>, q: nat, h: Header, grid: seq<u32>, hs: seq<byte>)
    requires HeaderAccepted(h) && |grid| == h.blockWidth * h.blockHeight < 0x8000_0000
    requires q + 4 + 4 * |grid| + |hs| <= |d|
    requires forall k :: 0 <= k < |grid| ==> U32(d, q + 4 * k) == grid[k]
    requires I32(d, q + 4 * |grid|) == |hs|
    requires d[q + 4 + 4 * |grid|..q + 4 + 4 * |grid| + |hs|] == hs
    ensures DecodeBody(d, q, h) == Ok((WithHeader(h, grid, hs), q + 4 + 4 * |grid| + |hs|))
  {
    var n := |grid|;
    assert ReadWords(d, q, n) == grid;
    SpanIsSlice(d, q + 4 + 4 * n, q + 4 + 4 * n + |hs|);
  }

  /** The header of saved bytes, read back. */
  lemma HeaderOfSaved(d: seq<byte>, p: nat, m: Mesh)
    requires Saveable(m) && HeaderAccepted(HeaderOf(m)) && StandsAt(d, p, Encode(m))
    ensures DecodeHeader(d, p) == Ok(HeaderOf(m))
  {
    EncodeParts(m);
    PartAt(d, p, Encode(m), 0, 32);
    LoadSavedHeader(d, p, HeaderOf(m));
  }

  /** The grid words of saved bytes, read back. */
  lemma GridOfSaved(d: seq<byte>, p: nat, m: Mesh)
    requires Saveable(m) && StandsAt(d, p, Encode(m))
    ensures forall k :: 0 <= k < |m.grid| ==> U32(d, p + 32 + 4 * k) == m.grid[k]
  {
    EncodeParts(m);
    PartAt(d, p, Encode(m), 32, 32 + 4 * |m.grid|);
    LoadSavedWords(d, p + 32, m.grid);
  }

  /** The buffer length and the buffer of saved bytes, read back. */
  lemma HeightsOfSaved(d: seq<byte>, p: nat, m: Mesh)
    requires Saveable(m) && StandsAt(d, p, Encode(m))
    ensures p + |Encode(m)| == p + 36 + 4 * |m.grid| + |m.multiheights| <= |d|
    ensures I32(d, p + 32 + 4 * |m.grid|) == |m.multiheights|
    ensures d[p + 36 + 4 * |m.grid|..p + 36 + 4 * |m.grid| + |m.multiheights|] == m.multiheights
  {
    var e := Encode(m);
    var hs := m.multiheights;
    var a := 32 + 4 * |m.grid|;
    EncodeParts(m);
    PartAt(d, p, e, a, a + 4);
    I32Encoded(d, p + a, |hs|);
    PartAt(d, p, e, a + 4, a + 4 + |hs|);
    assert e[a + 4..a + 4 + |hs|] == hs;
  }

  /** Load reads back what Save wrote, wherever in a stream those bytes stand. */
  lemma LoadSaved(d: seq<byte>, p: nat, m: Mesh)
    requires Saveable(m) && Loadable(m) && StandsAt(d, p, Encode(m))
    ensures DecodeMesh(d, p) == Ok((m, p + |Encode(m)|))
  {
    HeaderOfSaved(d, p, m);
    GridOfSaved(d, p, m);
    HeightsOfSaved(d, p, m);
    DecodeMeshOf(d, p, m);
  }

  /**
   * Save writes a mesh of 2^31 blocks or more, but Load's grid count for it is negative,
   * so reading it back throws the OverflowException.
   */
  lemma LoadSavedOverflows(d: seq<byte>, p: nat, m: Mesh)
    requires Saveable(m) && HeaderAccepted(HeaderOf(m)) && StandsAt(d, p, Encode(m))
    requires m.blockWidth * m.blockHeight >= 0x8000_0000
    ensures DecodeMesh(d, p) == Err(Overflow)
  {
    HeaderOfSaved(d, p, m);
    DecodeBodyOkIff(d, p + 32, HeaderOf(m));
  }

  /** The round trip of a file holding one mesh and nothing else. */
  lemma LoadSavedFile(m: Mesh)
    requires Saveable(m) && Loadable(m)
    ensures DecodeMesh(Encode(m), 0) == Ok((m, |Encode(m)|))
  {
    StandsAlone(Encode(m));
    LoadSaved(Encode(m), 0, m);
  }

  /** The float 100.0f: far above the upper limit of the z step check. */
  const Hundred: u32 := 0x42C8_0000

  /**
   * The "bad z step" test reads step rather than maxZStep, so Load accepts and returns
   * a mesh whose maxZStep is far above 16.
   */
  lemma MaxZStepNotChecked(m: Mesh)
    requires Saveable(m) && Loadable(m)
    ensures var bad := m.(maxZStep := Hundred);
            Float32.Less(Float32.Sixteen, bad.maxZStep) && DecodeMesh(Encode(bad), 0) == Ok((bad, |Encode(bad)|))
  {
    var bad := m.(maxZStep := Hundred);
    assert HeaderOf(bad) == HeaderOf(m).(maxZStep := Hundred);
    LoadSavedFile(bad);
  }

  /** The range the "bad z step" check is meant to enforce. */
  predicate ZStepInRange(w: u32)
  {
    !(Float32.Less(w, Float32.Zero) || Float32.Less(Float32.Sixteen, w))
  }

  /** DecodeHeader with the "bad z step" test applied to maxZStep, as its message says. */
  function DecodeHeaderChecked(d: seq<byte>, p: nat): (r: Result<Header>)
    ensures r.Ok? ==> ZStepInRange(r.value.maxZStep) && p + 32 <= |d|
  {
    if p + 4 > |d| then Err(EndOfStream)
    else if I32(d, p) != Magic then Err("invalid file format - expected CompiledNavMesh header")
    else if p + 8 > |d| then Err(EndOfStream)
    else if U16(d, p + 4) == 0 || U16(d, p + 6) == 0 then Err("bad block size")
    else if p + 12 > |d| then Err(EndOfStream)
    else if Float32.Less(U32(d, p + 8), Float32.PointOne) then Err("bad step range")
    else if p + 16 > |d| then Err(EndOfStream)
    else if !ZStepInRange(U32(d, p + 12)) then Err("bad z step")
    else if p + 24 > |d| then Err(EndOfStream)
    else if Float32.Less(U32(d, p + 16), Float32.Zero) || Float32.Less(U32(d, p + 20), Float32.Zero) then
      Err("bad xy min")
    else if p + 32 > |d| then Err(EndOfStream)
    else
      Ok(Header(U16(d, p + 4), U16(d, p + 6), U32(d, p + 8), U32(d, p + 12),
                U32(d, p + 16), U32(d, p + 20), I32(d, p + 24), I32(d, p + 28)))
  }

  /**
   * Where both the step and the maxZStep word are within the limits, the corrected check
   * reads exactly what Load reads.
   */
  lemma CheckedAgrees(d: seq<byte>, p: nat)
    requires p + 16 <= |d| ==> ZStepInRange(U32(d, p + 8)) && ZStepInRange(U32(d, p + 12))
    ensures DecodeHeaderChecked(d, p) == DecodeHeader(d, p)
  {
  }

  // ---------------------------------------------------------------------------
  // The set of meshes

  function EncodeMeshes(ms: seq<Mesh>): (s: seq<byte>)
    requires forall i :: 0 <= i < |ms| ==> Saveable(ms[i])
  {
    Join(Encode, ms)
  }

  /** CompiledNavMeshSet.Save: the set magic, the count, then each mesh in order. */
  function EncodeSet(ms: seq<Mesh>): (s: seq<byte>)
    requires |ms| < 0x8000_0000
    requires forall i :: 0 <= i < |ms| ==> Saveable(ms[i])
  {
    LEI32(SetMagic) + LEI32(|ms|) + EncodeMeshes(ms)
  }

  /** count meshes read one after another. */
  function DecodeMeshes(d: seq<byte>, p: nat, count: nat): (r: Result<(seq<Mesh>, nat)>)
    ensures r.Ok? ==> |r.value.0| == count
  {
    Repeat(DecodeMesh, d, p, count)
  }

  /**
   * CompiledNavMeshSet.Load: the magic, then the count (a negative count makes the
   * list's capacity throw), then the meshes.
   */
  function DecodeSet(d: seq<byte>, p: nat): (r: Result<(seq<Mesh>, nat)>)
  {
    if p + 4 > |d| then Err(EndOfStream)
    else if I32(d, p) != SetMagic then Err("invalid file format - expected CompiledNavMesh header")
    else if p + 8 > |d| then Err(EndOfStream)
    else if I32(d, p + 4) < 0 then Err("capacity is negative")
    else DecodeMeshes(d, p + 8, I32(d, p + 4))
  }

  method LoadSet(d: seq<byte>, p: nat) returns (r: Result<seq<Mesh>>, q: nat)
    ensures r.Ok? <==> DecodeSet(d, p).Ok?
    ensures r.Ok? ==> (r.value, q) == DecodeSet(d, p).value
  {
    q := p;
    var magic, count;
    magic, q :- ReadI32(d, q);
    if magic != SetMagic {
      return Err("invalid file format - expected CompiledNavMesh header"), q;
    }
    count, q :- ReadI32(d, q);
    if count < 0 {
      return Err("capacity is negative"), q;
    }
    r, q := LoadMeshes(d, q, count);
  }

  /** The loop of CompiledNavMeshSet.Load: count meshes, each read with Load. */
  method LoadMeshes(d: seq<byte>, p: nat, count: nat) returns (r: Result<seq<Mesh>>, q: nat)
    ensures r.Ok? <==> DecodeMeshes(d, p, count).Ok?
    ensures r.Ok? ==> (r.value, q) == DecodeMeshes(d, p, count).value
  {
    q := p;
    var list: seq<Mesh> := [];
    var i := 0;
    PrependNothing(DecodeMeshes(d, q, count));
    while i < count
      invariant 0 <= i <= count && |list| == i
      invariant DecodeMeshes(d, p, count) == Prepend(list, DecodeMeshes(d, q, count - i))
    {
      var sg, next := Load(d, q);
      if sg.Err? {
        RepeatFails(DecodeMesh, d, q, count - i, list);
        return Err(sg.error), next;
      }
      RepeatStep(DecodeMesh, d, q, count - i, list, sg.value, next);
      list := list + [sg.value];
      q := next;
      i := i + 1;
    }
    assert list + [] == list;
    return Ok(list), q;
  }

  /** Each of the meshes reads back from its saved bytes, wherever they stand. */
  lemma LoadSavedEach(d: seq<byte>, ms: seq<Mesh>)
    requires forall i :: 0 <= i < |ms| ==> Saveable(ms[i]) && Loadable(ms[i])
    ensures ReadsBack(DecodeMesh, Encode, d, ms)
  {
    var dec, enc := DecodeMesh, Encode;
    forall i, q: nat {:trigger StandsAt(d, q, enc(ms[i]))} | 0 <= i < |ms| && StandsAt(d, q, enc(ms[i]))
      ensures dec(d, q) == Ok((ms[i], q + |enc(ms[i])|))
    {
      LoadSaved(d, q, ms[i]);
    }
  }

  /** Loading saved meshes gives back the same meshes in the same order. */
  lemma LoadSavedMeshes(d: seq<byte>, p: nat, ms: seq<Mesh>)
    requires forall i :: 0 <= i < |ms| ==> Saveable(ms[i]) && Loadable(ms[i])
    requires StandsAt(d, p, EncodeMeshes(ms))
    ensures DecodeMeshes(d, p, |ms|) == Ok((ms, p + |EncodeMeshes(ms)|))
  {
    LoadSavedEach(d, ms);
    RepeatRoundTrip(DecodeMesh, Encode, d, p, ms);
  }

  /** Loading a saved set gives back the same meshes in the same order. */
  lemma LoadSavedSet(d: seq<byte>, p: nat, ms: seq<Mesh>)
    requires |ms| < 0x8000_0000
    requires forall i :: 0 <= i < |ms| ==> Saveable(ms[i]) && Loadable(ms[i])
    requires StandsAt(d, p, EncodeSet(ms))
    ensures DecodeSet(d, p) == Ok((ms, p + |EncodeSet(ms)|))
  {
    var e := EncodeSet(ms);
    PartAt(d, p, e, 0, 4);
    assert e[0..4] == LEI32(SetMagic);
    I32Encoded(d, p, SetMagic);
    PartAt(d, p, e, 4, 8);
    assert e[4..8] == LEI32(|ms|);
    I32Encoded(d, p + 4, |ms|);
    StandsPart(d, p, e, 8, |e|);
    assert e[8..|e|] == EncodeMeshes(ms);
    LoadSavedMeshes(d, p + 8, ms);
  }
}
