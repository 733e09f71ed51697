/// NavMeshCompiler: packs the floors of one subgraph, over a window of the builder's
/// grid, into the words and the multi-floor buffer of a CompiledNavMesh.
module NavMeshCompiler {
  import opened Outcome
  import opened Bytes
  import opened NavMeshFloors
  import NavMeshUtil
  import CompiledNavMesh

  type Entry = CompiledNavMesh.Entry

  const TooManyHeights := "too many heights"
  const HeightLimitExceeded := "height limit exceeded"

  /** The builder's grid as the compiler keeps it. */
  datatype Compiler = Compiler(blockWidth: nat, blockHeight: nat, floorData: FloorData, step: u32, maxZStep: u32)

  /** The builder hands over one floor list (or null) per block. */
  predicate Valid(c: Compiler)
  {
    |c.floorData| == c.blockWidth * c.blockHeight
  }

  /** The arguments Build accepts: a non-empty window inside the grid and 0 <= z1 < z2. */
  predicate ArgsOk(c: Compiler, startBX: int, startBY: int, newBlockWidth: int, newBlockHeight: int, z1: int, z2: int)
  {
    startBX >= 0 && startBY >= 0 && newBlockWidth > 0 && newBlockHeight > 0
    && startBX + newBlockWidth <= c.blockWidth && startBY + newBlockHeight <= c.blockHeight
    && z1 >= 0 && z2 > z1
  }

  /** Every floor of the subgraph lies between z1 and z2, the range the heights are encoded over. */
  predicate InRange(z1: int, z2: int, subgraph: set<EdgeVertex>)
  {
    forall v :: v in subgraph ==> z1 * 100 <= v.z100i <= z2 * 100
  }

  /** Build keeps a floor of block (x, y) when it is passable in some direction and in the subgraph. */
  predicate Keeps(subgraph: set<EdgeVertex>, x: int, y: int, f: FloorDesc)
  {
    f.directionFlags != 0xFF && EdgeVertex(ToU16(x), ToU16(y), f.z100i) in subgraph
  }

  /** The entry a kept floor becomes: its flags and its height encoded over [z1, z2]. */
  function Encoded(subgraph: set<EdgeVertex>, x: int, y: int, z1: int, z2: int, f: FloorDesc): (e: Entry)
    requires z1 < z2 && InRange(z1, z2, subgraph) && Keeps(subgraph, x, y, f)
    ensures e.flags == f.directionFlags
  {
    CompiledNavMesh.Entry(f.directionFlags, NavMeshUtil.EncodeHeight(z1, z2, f.z100i as real / 100.0))
  }

  /** The entries of the kept floors of a list, in list order. */
  function KeptEntries(subgraph: set<EdgeVertex>, x: int, y: int, z1: int, z2: int, floors: seq<FloorDesc>)
    : (es: seq<Entry>)
    requires z1 < z2 && InRange(z1, z2, subgraph)
    ensures |es| <= |floors|
  {
    if floors == [] then []
    else
      var f := floors[|floors| - 1];
      KeptEntries(subgraph, x, y, z1, z2, floors[..|floors| - 1])
      + (if Keeps(subgraph, x, y, f) then [Encoded(subgraph, x, y, z1, z2, f)] else [])
  }

  /** The (flags, height low byte, height high byte) triples of a list of entries. */
  function Triples(es: seq<Entry>): (s: seq<byte>)
    ensures |s| == 3 * |es|
  {
    if es == [] then []
    else
      var e := es[|es| - 1];
      Triples(es[..|es| - 1]) + [e.flags, e.encZ % 0x100, e.encZ / 0x100]
  }

  /** Triple k of the bytes is entry k. */
  lemma {:induction false} TriplesAt(es: seq<Entry>, k: nat)
    requires k < |es|
    ensures Triples(es)[3 * k] == es[k].flags
    ensures Triples(es)[3 * k + 1] == es[k].encZ % 0x100 && Triples(es)[3 * k + 2] == es[k].encZ / 0x100
  {
    if k < |es| - 1 {
      TriplesAt(es[..|es| - 1], k);
    }
  }

  /** The floors Build keeps for block (x, y) of the builder's grid. */
  function CellKept(c: Compiler, subgraph: set<EdgeVertex>, x: int, y: int, z1: int, z2: int): seq<Entry>
    requires z1 < z2 && InRange(z1, z2, subgraph)
  {
    var i := y * c.blockWidth + x;
    if 0 <= i < |c.floorData| && c.floorData[i].Some? then KeptEntries(subgraph, x, y, z1, z2, c.floorData[i].value)
    else []
  }

  /** The kept floors of n blocks of row y, from column x0. */
  function RowCells(c: Compiler, subgraph: set<EdgeVertex>, x0: int, y: int, n: nat, z1: int, z2: int)
    : (cells: seq<seq<Entry>>)
    requires z1 < z2 && InRange(z1, z2, subgraph)
    ensures |cells| == n
  {
    seq(n, k => CellKept(c, subgraph, x0 + k, y, z1, z2))
  }

  /** The kept floors of the window's first `rows` rows, row-major: the cells of the new grid. */
  function Window(c: Compiler, subgraph: set<EdgeVertex>, x0: int, y0: int, width: nat, rows: nat, z1: int, z2: int)
    : (cells: seq<seq<Entry>>)
    requires z1 < z2 && InRange(z1, z2, subgraph)
    ensures |cells| == rows * width
  {
    if rows == 0 then []
    else Window(c, subgraph, x0, y0, width, rows - 1, z1, z2) + RowCells(c, subgraph, x0, y0 + rows - 1, width, z1, z2)
  }

  /** Every cell holds at most 255 floors, what the count byte can say. */
  predicate Fits(cells: seq<seq<Entry>>)
  {
    forall i :: 0 <= i < |cells| ==> |cells[i]| <= 255
  }

  /** The buffer: the triples of the cells with two or more floors, in cell order. */
  function Stored(cells: seq<seq<Entry>>): (s: seq<byte>)
  {
    if cells == [] then []
    else
      var es := cells[|cells| - 1];
      Stored(cells[..|cells| - 1]) + (if |es| >= 2 then Triples(es) else [])
  }

  /**
   * A word and the buffer store a cell's floors: an impassable word (no floor, all
   * directions blocked) for none; otherwise the count and exactly those entries.
   */
  predicate Decodes(w: u32, mh: seq<byte>, es: seq<Entry>)
  {
    if es == [] then w == 0x00FF_0000
    else CompiledNavMesh.FloorCount(w) == |es| && CompiledNavMesh.AllReadable(mh, w)
         && CompiledNavMesh.CellEntries(mh, w) == es
  }

  /** An empty cell's word reads as no floor with every direction blocked. */
  lemma EmptyCellIsImpassable()
    ensures CompiledNavMesh.FloorCount(0x00FF_0000) == 0
    ensures CompiledNavMesh.UnpackSingleEntry(0x00FF_0000).flags == 0xFF
  {
  }

  /** What a word reads from the buffer does not change when the buffer grows. */
  lemma DecodesGrow(w: u32, mh: seq<byte>, more: seq<byte>, es: seq<Entry>)
    requires Decodes(w, mh, es)
    ensures Decodes(w, mh + more, es)
  {
    if es != [] {
      var a, b := CompiledNavMesh.CellEntries(mh, w), CompiledNavMesh.CellEntries(mh + more, w);
      forall k | 0 <= k < |a| ensures a[k] == b[k] {
        if CompiledNavMesh.FloorCount(w) != 1 {
          var o := CompiledNavMesh.Offset(w) + 3 * k;
          assert (mh + more)[o] == mh[o] && (mh + more)[o + 1] == mh[o + 1] && (mh + more)[o + 2] == mh[o + 2];
        }
      }
    }
  }

  /** Appending an entry appends its triple. */
  lemma TriplesSnoc(es: seq<Entry>, e: Entry)
    ensures Triples(es + [e]) == Triples(es) + [e.flags, e.encZ % 0x100, e.encZ / 0x100]
  {
    assert (es + [e])[..|es|] == es;
  }

  /** The fields of a word built from a count and an offset. */
  lemma WordFields(count: nat, offset: nat)
    requires count < 0x100 && offset < 0x100_0000
    ensures CompiledNavMesh.FloorCount(count * 0x100_0000 + offset) == count
    ensures CompiledNavMesh.Offset(count * 0x100_0000 + offset) == offset
  {
  }

  /** The inline word of a one-floor cell decodes to that floor. */
  lemma SingleDecodes(e: Entry, mh: seq<byte>)
    ensures Decodes(0x100_0000 + e.flags as int * 0x1_0000 + (e.encZ / 0x100) * 0x100 + e.encZ % 0x100, mh, [e])
  {
    var w := 0x100_0000 + e.flags as int * 0x1_0000 + (e.encZ / 0x100) * 0x100 + e.encZ % 0x100;
    WordFields(1, e.flags as int * 0x1_0000 + e.encZ);
    assert CompiledNavMesh.UnpackSingleEntry(w) == e;
    assert CompiledNavMesh.CellEntries(mh, w) == [e];
  }

  /** The word of a cell with several floors, stored at the current end of the buffer, decodes to them. */
  lemma MultiDecodes(es: seq<Entry>, mh: seq<byte>, w: u32)
    requires 2 <= |es| && CompiledNavMesh.FloorCount(w) == |es| && CompiledNavMesh.Offset(w) == |mh|
    ensures Decodes(w, mh + Triples(es), es)
  {
    var hs := mh + Triples(es);
    var got := CompiledNavMesh.CellEntries(hs, w);
    forall k | 0 <= k < |es| ensures got[k] == es[k] {
      TriplesAt(es, k);
      var o := |mh| + 3 * k;
      assert hs[o] == Triples(es)[3 * k] && hs[o + 1] == Triples(es)[3 * k + 1] && hs[o + 2] == Triples(es)[3 * k + 2];
      assert got[k] == CompiledNavMesh.UnpackMultiEntry(hs, o);
      assert U16(hs, o + 1) == es[k].encZ;
    }
  }

  /** The kept entries of one more floor of a list. */
  lemma KeptStep(subgraph: set<EdgeVertex>, x: int, y: int, z1: int, z2: int, floors: seq<FloorDesc>, j: nat)
    requires z1 < z2 && InRange(z1, z2, subgraph) && j < |floors|
    ensures KeptEntries(subgraph, x, y, z1, z2, floors[..j + 1])
         == KeptEntries(subgraph, x, y, z1, z2, floors[..j])
            + (if Keeps(subgraph, x, y, floors[j]) then [Encoded(subgraph, x, y, z1, z2, floors[j])] else [])
  {
    assert floors[..j + 1][..j] == floors[..j];
  }

  /**
   * The loop over one block's floors: the triples of the kept floors. The source
   * encodes the height before its two checks; the value of a skipped floor is unused.
   */
  method GatherCell(subgraph: set<EdgeVertex>, x: int, y: int, z1: int, z2: int, floors: seq<FloorDesc>)
    returns (bytes: seq<byte>)
    requires z1 < z2 && InRange(z1, z2, subgraph)
    ensures bytes == Triples(KeptEntries(subgraph, x, y, z1, z2, floors))
  {
    bytes := [];
    for j := 0 to |floors|
      invariant bytes == Triples(KeptEntries(subgraph, x, y, z1, z2, floors[..j]))
    {
      var floor := floors[j];
      KeptStep(subgraph, x, y, z1, z2, floors, j);
      if floor.directionFlags == 0xFF {
        assert !Keeps(subgraph, x, y, floors[j]);
        assert KeptEntries(subgraph, x, y, z1, z2, floors[..j + 1]) == KeptEntries(subgraph, x, y, z1, z2, floors[..j]);
        continue;
      }
      if EdgeVertex(ToU16(x), ToU16(y), floor.z100i) !in subgraph {
        assert !Keeps(subgraph, x, y, floors[j]);
        assert KeptEntries(subgraph, x, y, z1, z2, floors[..j + 1]) == KeptEntries(subgraph, x, y, z1, z2, floors[..j]);
        continue;
      }
      var entry := Encoded(subgraph, x, y, z1, z2, floor);
      TriplesSnoc(KeptEntries(subgraph, x, y, z1, z2, floors[..j]), entry);
      bytes := bytes + [entry.flags, entry.encZ % 0x100, entry.encZ / 0x100];
    }
    assert floors[..|floors|] == floors;
  }

  /**
   * The grid word of one cell from its triples (ghost `kept`, the floors they encode),
   * and the buffer after it: one floor inline, several appended to the buffer at its end,
   * none impassable; more than 255 floors throw. The word of a cell whose triples start
   * past the 24-bit offset range is never used, since Build then fails on the buffer size.
   */
  method EncodeCell(bytes: seq<byte>, ghost kept: seq<Entry>, multiheights: seq<byte>)
    returns (r: Result<(u32, seq<byte>)>)
    requires bytes == Triples(kept)
    ensures r.Err? <==> |kept| > 255
    ensures r.Err? ==> r.error == TooManyHeights
    ensures r.Ok? ==> r.value.1 == multiheights + (if |kept| >= 2 then bytes else [])
    ensures r.Ok? && |r.value.1| <= 0xFF_FFFF ==> Decodes(r.value.0, r.value.1, kept)
  {
    if |bytes| == 3 {
      assert kept == [kept[0]];
      TriplesAt(kept, 0);
      SingleDecodes(kept[0], multiheights);
      return Ok((0x100_0000 + bytes[0] as int * 0x1_0000 + bytes[2] as int * 0x100 + bytes[1] as int, multiheights));
    } else if |bytes| > 3 {
      if |bytes| > 255 * 3 {
        return Err(TooManyHeights);
      }
      var index := |multiheights|;
      var word := (|bytes| / 3) * 0x100_0000 + index % 0x100_0000;
      WordFields(|bytes| / 3, index % 0x100_0000);
      if index < 0x100_0000 {
        MultiDecodes(kept, multiheights, word);
      }
      return Ok((word, multiheights + bytes));
    } else {
      return Ok((0x00FF_0000, multiheights));
    }
  }

  /**
   * Cell k of the window is block (x0 + k % width, y0 + k / width): the new grid is the
   * window's blocks, row by row.
   */
  lemma {:induction false} WindowAt(c: Compiler, subgraph: set<EdgeVertex>, x0: int, y0: int, width: nat, rows: nat,
                                    z1: int, z2: int, k: nat)
    requires z1 < z2 && InRange(z1, z2, subgraph) && k < rows * width
    ensures Window(c, subgraph, x0, y0, width, rows, z1, z2)[k] == CellKept(c, subgraph, x0 + k % width, y0 + k / width, z1, z2)
  {
    var before := Window(c, subgraph, x0, y0, width, rows - 1, z1, z2);
    if k < (rows - 1) * width {
      WindowAt(c, subgraph, x0, y0, width, rows - 1, z1, z2, k);
    } else {
      var j := k - (rows - 1) * width;
      DivModRow(rows - 1, width, j);
    }
  }

  lemma DivModRow(row: nat, width: nat, j: nat)
    requires j < width
    ensures (row * width + j) / width == row && (row * width + j) % width == j
  {
    var n := row * width + j;
    var q, m := n / width, n % width;
    assert n == q * width + m;
    if q > row {
      assert (row + 1) * width == row * width + width;
      CompiledNavMesh.MulLe(row + 1, q, width);
    } else if q < row {
      assert (q + 1) * width == q * width + width;
      CompiledNavMesh.MulLe(q + 1, row, width);
    }
  }

  /**
   * What Build returns for a window: an argument error when the window leaves the grid or
   * the height range is empty or negative; otherwise the errors for a block with too many
   * heights and for more heights than 24 bits can index, an error exactly when a side of
   * the window needs more than 16 bits, and else a mesh holding the window's floors.
   */
  ghost predicate Compiles(r: Result<CompiledNavMesh.Mesh>, c: Compiler, subgraph: set<EdgeVertex>,
                           startBX: int, startBY: int, newBlockWidth: int, newBlockHeight: int,
                           x1: u32, y1: u32, z1: i32, z2: i32)
    requires InRange(z1, z2, subgraph)
  {
    && (!ArgsOk(c, startBX, startBY, newBlockWidth, newBlockHeight, z1, z2) ==> r == Err(ArgumentOutOfRange))
    && (ArgsOk(c, startBX, startBY, newBlockWidth, newBlockHeight, z1, z2) ==>
          var cells := Window(c, subgraph, startBX, startBY, newBlockWidth, newBlockHeight, z1, z2);
          && (!Fits(cells) ==> r == Err(TooManyHeights))
          && (Fits(cells) && |Stored(cells)| > 0xFF_FFFF ==> r == Err(HeightLimitExceeded))
          && (Fits(cells) && |Stored(cells)| <= 0xFF_FFFF ==>
                (r.Ok? <==> newBlockWidth < 0x1_0000 && newBlockHeight < 0x1_0000))
          && (r.Ok? ==> Built(r.value, c, newBlockWidth, newBlockHeight, x1, y1, z1, z2, cells)))
  }

  /**
   * Build: the subgraph's floors over the window [startBX, startBX + newBlockWidth) x
   * [startBY, startBY + newBlockHeight), block by block in row order, as a new mesh
   * with the builder's step and maxZStep. A block's word decodes to its kept floors.
   */
  method Build(c: Compiler, subgraph: set<EdgeVertex>, startBX: int, startBY: int,
               newBlockWidth: int, newBlockHeight: int, x1: u32, y1: u32, z1: i32, z2: i32)
    returns (r: Result<CompiledNavMesh.Mesh>)
    requires Valid(c) && InRange(z1, z2, subgraph)
    ensures Compiles(r, c, subgraph, startBX, startBY, newBlockWidth, newBlockHeight, x1, y1, z1, z2)
  {
    if startBX < 0 || startBY < 0 || newBlockWidth <= 0 || newBlockHeight <= 0
       || startBX + newBlockWidth > c.blockWidth || startBY + newBlockHeight > c.blockHeight {
      return Err(ArgumentOutOfRange);
    }
    if z1 < 0 || z2 <= z1 {
      return Err(ArgumentOutOfRange);
    }
    var grid := new u32[newBlockWidth * newBlockHeight];
    var multiheights := FillGrid(c, subgraph, startBX, startBY, newBlockWidth, newBlockHeight, z1, z2, grid);
    if multiheights.Err? {
      return Err(multiheights.error);
    }
    if |multiheights.value| > 0xFF_FFFF {
      return Err(HeightLimitExceeded);
    }
    r := CompiledNavMesh.Create(newBlockWidth, newBlockHeight, c.step, c.maxZStep, x1, y1, z1, z2, grid[..], multiheights.value);
  }

  /** A mesh holds exactly the given cells, with the builder's step and slope. */
  predicate Built(m: CompiledNavMesh.Mesh, c: Compiler, width: int, height: int, x1: u32, y1: u32, z1: i32, z2: i32,
                  cells: seq<seq<Entry>>)
  {
    && m.blockWidth == width && m.blockHeight == height
    && m.step == c.step && m.maxZStep == c.maxZStep && m.x1 == x1 && m.y1 == y1 && m.z1 == z1 && m.z2 == z2
    && |m.grid| == |cells| && m.multiheights == Stored(cells)
    && forall i :: 0 <= i < |cells| ==> Decodes(m.grid[i], m.multiheights, cells[i])
  }

  lemma RowsFit(rows: nat, height: nat, width: nat)
    requires rows < height
    ensures rows * width + width <= height * width
  {
    CompiledNavMesh.MulLe(rows + 1, height, width);
  }

  /** A window with an oversized cell among its first rows has one among all its rows. */
  lemma {:induction false} UnfitGrows(c: Compiler, subgraph: set<EdgeVertex>, x0: int, y0: int, width: nat, rows: nat,
                                      all: nat, z1: int, z2: int)
    requires z1 < z2 && InRange(z1, z2, subgraph) && rows <= all
    requires !Fits(Window(c, subgraph, x0, y0, width, rows, z1, z2))
    ensures !Fits(Window(c, subgraph, x0, y0, width, all, z1, z2))
  {
    if rows < all {
      UnfitGrows(c, subgraph, x0, y0, width, rows, all - 1, z1, z2);
      var w := Window(c, subgraph, x0, y0, width, all - 1, z1, z2);
      var k :| 0 <= k < |w| && |w[k]| > 255;
      assert Window(c, subgraph, x0, y0, width, all, z1, z2)[k] == w[k];
    }
  }

  /**
   * The outer loop of Build over the window's rows: the words written to `grid` and the
   * buffer, or "too many heights" at the first block with more than 255 floors.
   */
  method FillGrid(c: Compiler, subgraph: set<EdgeVertex>, startBX: int, startBY: int,
                  newBlockWidth: int, newBlockHeight: int, z1: int, z2: int, grid: array<u32>)
    returns (r: Result<seq<byte>>)
    requires Valid(c) && InRange(z1, z2, subgraph) && ArgsOk(c, startBX, startBY, newBlockWidth, newBlockHeight, z1, z2)
    requires grid.Length == newBlockWidth * newBlockHeight
    modifies grid
    ensures var cells := Window(c, subgraph, startBX, startBY, newBlockWidth, newBlockHeight, z1, z2);
      && (r.Err? <==> !Fits(cells))
      && (r.Err? ==> r.error == TooManyHeights)
      && (r.Ok? ==> r.value == Stored(cells))
      && (r.Ok? && |r.value| <= 0xFF_FFFF ==> AllDecode(grid, r.value, cells))
  {
    var multiheights: seq<byte> := [];
    var rows := 0;
    while rows < newBlockHeight
      invariant 0 <= rows <= newBlockHeight
      invariant Fits(Window(c, subgraph, startBX, startBY, newBlockWidth, rows, z1, z2))
      invariant multiheights == Stored(Window(c, subgraph, startBX, startBY, newBlockWidth, rows, z1, z2))
      invariant |multiheights| <= 0xFF_FFFF ==>
                  AllDecode(grid, multiheights, Window(c, subgraph, startBX, startBY, newBlockWidth, rows, z1, z2))
    {
      var row := FillWindowRow(c, subgraph, startBX, startBY, newBlockWidth, newBlockHeight, rows, z1, z2, grid, multiheights);
      if row.Err? {
        UnfitGrows(c, subgraph, startBX, startBY, newBlockWidth, rows + 1, newBlockHeight, z1, z2);
        return Err(TooManyHeights);
      }
      multiheights := row.value;
      rows := rows + 1;
    }
    r := Ok(multiheights);
  }

  /** The words of a grid decode to the given cells. */
  predicate AllDecode(grid: array<u32>, mh: seq<byte>, cells: seq<seq<Entry>>)
    reads grid
  {
    |cells| <= grid.Length && forall i :: 0 <= i < |cells| ==> Decodes(grid[i], mh, cells[i])
  }

  /** One pass of Build's outer loop: row `rows` of the window, grid row by grid row. */
  method FillWindowRow(c: Compiler, subgraph: set<EdgeVertex>, startBX: int, startBY: int,
                       newBlockWidth: int, newBlockHeight: int, rows: nat, z1: int, z2: int, grid: array<u32>,
                       mh: seq<byte>)
    returns (r: Result<seq<byte>>)
    requires Valid(c) && InRange(z1, z2, subgraph) && ArgsOk(c, startBX, startBY, newBlockWidth, newBlockHeight, z1, z2)
    requires grid.Length == newBlockWidth * newBlockHeight && rows < newBlockHeight
    requires Fits(Window(c, subgraph, startBX, startBY, newBlockWidth, rows, z1, z2))
    requires mh == Stored(Window(c, subgraph, startBX, startBY, newBlockWidth, rows, z1, z2))
    requires |mh| <= 0xFF_FFFF ==> AllDecode(grid, mh, Window(c, subgraph, startBX, startBY, newBlockWidth, rows, z1, z2))
    modifies grid
    ensures var cells := Window(c, subgraph, startBX, startBY, newBlockWidth, rows + 1, z1, z2);
      && (r.Err? <==> !Fits(cells))
      && (r.Ok? ==> r.value == Stored(cells))
      && (r.Ok? && |r.value| <= 0xFF_FFFF ==> AllDecode(grid, r.value, cells))
  {
    ghost var cells := Window(c, subgraph, startBX, startBY, newBlockWidth, rows, z1, z2);
    RowsFit(rows, newBlockHeight, newBlockWidth);
    r := FillRow(c, subgraph, startBX, startBY + rows, newBlockWidth, z1, z2, grid, rows * newBlockWidth, mh, cells);
    WindowStep(c, subgraph, startBX, startBY, newBlockWidth, rows, z1, z2);
  }

  /** One more row of the window. */
  lemma WindowStep(c: Compiler, subgraph: set<EdgeVertex>, x0: int, y0: int, width: nat, rows: nat, z1: int, z2: int)
    requires z1 < z2 && InRange(z1, z2, subgraph)
    ensures Window(c, subgraph, x0, y0, width, rows + 1, z1, z2)
         == Window(c, subgraph, x0, y0, width, rows, z1, z2) + RowCells(c, subgraph, x0, y0 + rows, width, z1, z2)
  {
  }

  /** One more block of a row. */
  lemma RowStep(c: Compiler, subgraph: set<EdgeVertex>, x0: int, y: int, n: nat, z1: int, z2: int)
    requires z1 < z2 && InRange(z1, z2, subgraph)
    ensures RowCells(c, subgraph, x0, y, n + 1, z1, z2)
         == RowCells(c, subgraph, x0, y, n, z1, z2) + [CellKept(c, subgraph, x0 + n, y, z1, z2)]
  {
  }

  /** One more cell of the buffer. */
  lemma StoredStep(cells: seq<seq<Entry>>, es: seq<Entry>)
    ensures Stored(cells + [es]) == Stored(cells) + (if |es| >= 2 then Triples(es) else [])
  {
    assert (cells + [es])[..|cells|] == cells;
  }

  /** The words before a new one keep decoding once the buffer grows by the new cell's triples. */
  lemma DecodesStep(grid: seq<u32>, i: nat, mh: seq<byte>, mh': seq<byte>, cells: seq<seq<Entry>>, es: seq<Entry>)
    requires i == |cells| < |grid| && |mh| <= |mh'| && mh'[..|mh|] == mh
    requires |mh| <= 0xFF_FFFF ==> forall k :: 0 <= k < i ==> Decodes(grid[k], mh, cells[k])
    requires |mh'| <= 0xFF_FFFF ==> Decodes(grid[i], mh', es)
    ensures |mh'| <= 0xFF_FFFF ==> forall k :: 0 <= k < i + 1 ==> Decodes(grid[k], mh', (cells + [es])[k])
  {
    if |mh'| <= 0xFF_FFFF {
      assert mh' == mh + mh'[|mh|..];
      forall k | 0 <= k < i + 1 ensures Decodes(grid[k], mh', (cells + [es])[k]) {
        if k < i {
          DecodesGrow(grid[k], mh, mh'[|mh|..], cells[k]);
        }
      }
    }
  }

  /**
   * The inner loop of Build over one row of the window, from grid index iSub: the
   * words of its blocks and the buffer grown by their triples.
   */
  method FillRow(c: Compiler, subgraph: set<EdgeVertex>, startBX: int, y: int, width: nat, z1: int, z2: int,
                 grid: array<u32>, iSub: nat, mh: seq<byte>, ghost before: seq<seq<Entry>>)
    returns (r: Result<seq<byte>>)
    requires Valid(c) && z1 < z2 && InRange(z1, z2, subgraph)
    requires 0 <= startBX && startBX + width <= c.blockWidth && 0 <= y < c.blockHeight
    requires iSub == |before| && iSub + width <= grid.Length
    requires Fits(before) && mh == Stored(before)
    requires |mh| <= 0xFF_FFFF ==> forall i :: 0 <= i < iSub ==> Decodes(grid[i], mh, before[i])
    modifies grid
    ensures var cells := before + RowCells(c, subgraph, startBX, y, width, z1, z2);
      && (r.Err? <==> !Fits(cells))
      && (r.Err? ==> r.error == TooManyHeights)
      && (r.Ok? ==> r.value == Stored(cells))
      && (r.Ok? && |r.value| <= 0xFF_FFFF ==> forall i :: 0 <= i < |cells| ==> Decodes(grid[i], r.value, cells[i]))
  {
    var multiheights := mh;
    ghost var cells := before;
    var i := iSub;
    var iAll := y * c.blockWidth + startBX;
    for x := startBX to startBX + width
      invariant iAll == y * c.blockWidth + x
      invariant i == |cells| == iSub + (x - startBX)
      invariant cells == before + RowCells(c, subgraph, startBX, y, x - startBX, z1, z2)
      invariant Fits(cells) && multiheights == Stored(cells)
      invariant |multiheights| <= 0xFF_FFFF ==> forall k :: 0 <= k < i ==> Decodes(grid[k], multiheights, cells[k])
    {
      var block, kept := FillBlock(c, subgraph, x, y, iAll, z1, z2, grid, i, multiheights, cells);
      if block.Err? {
        ghost var all := before + RowCells(c, subgraph, startBX, y, width, z1, z2);
        assert all[i] == kept;
        return Err(TooManyHeights);
      }
      RowStep(c, subgraph, startBX, y, x - startBX, z1, z2);
      cells := cells + [kept];
      multiheights := block.value;
      iAll := iAll + 1;
      i := i + 1;
    }
    r := Ok(multiheights);
  }

  /**
   * The body of the inner loop: block (x, y) of the builder's grid, index iAll, becomes
   * word i of the new grid, and its floors are appended to the buffer when there are several.
   */
  method FillBlock(c: Compiler, subgraph: set<EdgeVertex>, x: int, y: int, iAll: int, z1: int, z2: int,
                   grid: array<u32>, i: nat, multiheights: seq<byte>, ghost cells: seq<seq<Entry>>)
    returns (r: Result<seq<byte>>, ghost kept: seq<Entry>)
    requires Valid(c) && z1 < z2 && InRange(z1, z2, subgraph)
    requires 0 <= x < c.blockWidth && 0 <= y < c.blockHeight && iAll == y * c.blockWidth + x
    requires i == |cells| < grid.Length && multiheights == Stored(cells)
    requires |multiheights| <= 0xFF_FFFF ==> forall k :: 0 <= k < i ==> Decodes(grid[k], multiheights, cells[k])
    modifies grid
    ensures kept == CellKept(c, subgraph, x, y, z1, z2)
    ensures r.Err? <==> |kept| > 255
    ensures r.Err? ==> r.error == TooManyHeights
    ensures r.Ok? ==> r.value == Stored(cells + [kept])
    ensures r.Ok? && |r.value| <= 0xFF_FFFF ==> forall k :: 0 <= k < i + 1 ==> Decodes(grid[k], r.value, (cells + [kept])[k])
  {
    var bytes: seq<byte> := [];
    kept := [];
    CompiledNavMesh.IndexOfXY(c.blockWidth, c.blockHeight, x, y);
    if c.floorData[iAll].Some? {
      bytes := GatherCell(subgraph, x, y, z1, z2, c.floorData[iAll].value);
      kept := KeptEntries(subgraph, x, y, z1, z2, c.floorData[iAll].value);
    }
    var cell := EncodeCell(bytes, kept, multiheights);
    if cell.Err? {
      return Err(cell.error), kept;
    }
    StoredStep(cells, kept);
    grid[i] := cell.value.0;
    DecodesStep(grid[..], i, multiheights, cell.value.1, cells, kept);
    r := Ok(cell.value.1);
  }
}
