/// The navigation-mesh builder (NavMeshBuilder.cs): a grid of blocks over the world's
/// bounding box, the floors found in each block, the edge dictionary derived from their
/// direction flags, the subgraph partition, the flag repair, the two validators and the
/// compilation of each subgraph. The ray casts that find floors and test directions are
/// geometry: IsDirectionBlocked takes their verdict as a parameter.
module NavMeshBuilder {
  import opened Outcome
  import opened Bytes
  import opened NavMeshUtil
  import opened NavMeshFloors
  import opened NavMeshSubgraphs
  import opened NavMeshFlagFix
  import CsMath
  import NavMeshCompiler
  import CompiledNavMesh

  /** ArgumentException of the constructor. */
  const BoundsOrder := "xyz1 must be less than xyz2"
  /** ArgumentOutOfRangeException of the constructor. */
  const BoundsNegative := "world bounds must be positive"
  const VertexNotFound := "vertex not found!"
  const VertexMissing := "vertex should exist in floor data!"
  const NeighborMissing := "neighbor vertex should exist in floor data!"
  const LeftOpen := "left should be blocked"
  const RightOpen := "right should be blocked"
  const BottomOpen := "bottom should be blocked"
  const TopOpen := "top should be blocked"
  const MultipleCandidates := "multiple candidate steps"

  /** 0.8f, the builder's maxZStep, as the single-precision word the compiled mesh stores. */
  const MaxZStepWord: u32 := 0x3F4C_CCCD

  /** The constructor's checks, in order: None when they all pass. */
  function BoundsError(x1: real, y1: real, z1: int, x2: real, y2: real, z2: int): (r: Option<string>)
    ensures r.None? <==> x1 < x2 && y1 < y2 && z1 < z2 && x1 >= 0.0 && y1 >= 0.0 && z1 >= 0
    ensures r == Some(BoundsOrder) <==> !(x1 < x2 && y1 < y2 && z1 < z2)
    ensures r.Some? ==> r.value in {BoundsOrder, BoundsNegative}
  {
    if x1 >= x2 || y1 >= y2 || z1 >= z2 then Some(BoundsOrder)
    else if x1 < 0.0 || y1 < 0.0 || z1 < 0 then Some(BoundsNegative)
    else None
  }

  /** The number of blocks along an axis: (int)Math.Ceiling(extent / step). */
  function BlockCount(lo: real, hi: real, step: real): (n: nat)
    requires lo < hi && step > 0.0
    ensures n > 0 && hi - lo <= n as real * step < hi - lo + step
  {
    var q := (hi - lo) / step;
    DivideExact(hi - lo, step, q);
    var c := CsMath.Ceiling(q);
    MultiplyBounds(q, c as real, step, hi - lo);
    c
  }

  lemma DivideExact(a: real, s: real, q: real)
    requires s > 0.0 && q == a / s
    ensures q * s == a && (q > 0.0 <==> a > 0.0)
  {
  }

  /** A quotient is determined by its product. */
  lemma QuotientOf(a: real, s: real, q: real)
    requires s > 0.0 && q * s == a
    ensures a / s == q
  {
    DivideExact(a, s, a / s);
    assert (a / s - q) * s == 0.0;
  }

  lemma MultiplyBounds(q: real, n: real, s: real, a: real)
    requires s > 0.0 && q <= n < q + 1.0 && q * s == a
    ensures a <= n * s < a + s
  {
    MultiplyUpper(q, n, s, a);
    MultiplyLower(q, n, s, a);
  }

  lemma MultiplyUpper(q: real, n: real, s: real, a: real)
    requires s > 0.0 && n < q + 1.0 && q * s == a
    ensures n * s < a + s
  {
    var d := q + 1.0 - n;
    assert d * s > 0.0;
    assert d * s == q * s + s - n * s;
  }

  lemma MultiplyLower(q: real, n: real, s: real, a: real)
    requires s > 0.0 && q <= n && q * s == a
    ensures a <= n * s
  {
    var e := n - q;
    assert e * s >= 0.0;
    assert e * s == n * s - q * s;
  }

  /** Floors whose heights are at or above zero, as the scan between z1 >= 0 and z2 produces. */
  predicate NonNegativeHeights(fd: FloorData)
  {
    forall i, k :: 0 <= i < |fd| && fd[i].Some? && 0 <= k < |fd[i].value| ==> fd[i].value[k].z100i >= 0
  }

  /** The three directions leaving a block through each of its sides. */
  const LeftSide: Flags := Left | TopLeft | BottomLeft
  const RightSide: Flags := Right | TopRight | BottomRight
  const BottomSide: Flags := Bottom | BottomLeft | BottomRight
  const TopSide: Flags := Top | TopLeft | TopRight

  /** Every floor of the list at height z is blocked in all the directions of mask. */
  predicate SideBlocked(list: seq<FloorDesc>, z: int, mask: Flags)
  {
    forall k :: 0 <= k < |list| ==> Shut(list[k], z, mask)
  }

  /** A floor other than the one at height z, or one with every direction of the mask blocked. */
  predicate Shut(f: FloorDesc, z: int, mask: Flags)
  {
    f.z100i == z ==> !Bits(f.directionFlags) & mask == 0
  }

  /** v lies on the left, right, bottom or top rim of its subgraph. */
  predicate Leftmost(sg: set<EdgeVertex>, v: EdgeVertex)
  {
    forall u :: u in sg ==> v.bX <= u.bX
  }

  predicate Rightmost(sg: set<EdgeVertex>, v: EdgeVertex)
  {
    forall u :: u in sg ==> u.bX <= v.bX
  }

  predicate Bottommost(sg: set<EdgeVertex>, v: EdgeVertex)
  {
    forall u :: u in sg ==> v.bY <= u.bY
  }

  predicate Topmost(sg: set<EdgeVertex>, v: EdgeVertex)
  {
    forall u :: u in sg ==> u.bY <= v.bY
  }

  /**
   * The test ValidateEdgesAtBoundsAreBlocked makes of one vertex: its block is in the
   * array and, for each rim of the subgraph it lies on, its list is not null and its floors
   * at its height are blocked toward that side.
   */
  predicate RimBlocked(fd: FloorData, w: nat, sg: set<EdgeVertex>, v: EdgeVertex)
  {
    var i := CellIndex(w, v);
    && i < |fd|
    && (Leftmost(sg, v) ==> fd[i].Some? && SideBlocked(fd[i].value, v.z100i, LeftSide))
    && (Rightmost(sg, v) ==> fd[i].Some? && SideBlocked(fd[i].value, v.z100i, RightSide))
    && (Bottommost(sg, v) ==> fd[i].Some? && SideBlocked(fd[i].value, v.z100i, BottomSide))
    && (Topmost(sg, v) ==> fd[i].Some? && SideBlocked(fd[i].value, v.z100i, TopSide))
  }

  /** The side tests a vertex's list must pass, for the rims selected by the four flags. */
  predicate SidesBlocked(data: Option<seq<FloorDesc>>, z: int, left: bool, right: bool, bottom: bool, top: bool)
  {
    && (left ==> data.Some? && SideBlocked(data.value, z, LeftSide))
    && (right ==> data.Some? && SideBlocked(data.value, z, RightSide))
    && (bottom ==> data.Some? && SideBlocked(data.value, z, BottomSide))
    && (top ==> data.Some? && SideBlocked(data.value, z, TopSide))
  }

  /** The bounds of a subgraph: block coordinates and heights in hundredths, each inclusive. */
  datatype Box = Box(minBX: int, maxBX: int, minBY: int, maxBY: int, minZ: int, maxZ: int)

  /** box is the smallest box holding every vertex of sg: each of its bounds is attained. */
  predicate IsExtent(sg: set<EdgeVertex>, box: Box)
  {
    && (forall v :: v in sg ==> box.minBX <= v.bX <= box.maxBX && box.minBY <= v.bY <= box.maxBY
                                && box.minZ <= v.z100i <= box.maxZ)
    && (exists v :: v in sg && v.bX == box.minBX) && (exists v :: v in sg && v.bX == box.maxBX)
    && (exists v :: v in sg && v.bY == box.minBY) && (exists v :: v in sg && v.bY == box.maxBY)
    && (exists v :: v in sg && v.z100i == box.minZ) && (exists v :: v in sg && v.z100i == box.maxZ)
  }

  /** On a vertex of sg, the rims it lies on are exactly the bounds of sg's extent it attains. */
  lemma RimSides(fd: FloorData, w: nat, sg: set<EdgeVertex>, box: Box, v: EdgeVertex)
    requires IsExtent(sg, box) && v in sg && CellIndex(w, v) < |fd|
    ensures RimBlocked(fd, w, sg, v) <==>
              SidesBlocked(fd[CellIndex(w, v)], v.z100i, v.bX == box.minBX, v.bX == box.maxBX, v.bY == box.minBY, v.bY == box.maxBY)
  {
    assert Leftmost(sg, v) <==> v.bX == box.minBX;
    assert Rightmost(sg, v) <==> v.bX == box.maxBX;
    assert Bottommost(sg, v) <==> v.bY == box.minBY;
    assert Topmost(sg, v) <==> v.bY == box.maxBY;
  }

  /** The loop over a subgraph that gathers its bounds (shared by the rim check and Build). */
  method Extent(sg: set<EdgeVertex>) returns (box: Box)
    requires sg != {}
    ensures IsExtent(sg, box)
  {
    var first :| first in sg;
    box := Box(first.bX, first.bX, first.bY, first.bY, first.z100i, first.z100i);
    var remaining := sg - {first};
    while remaining != {}
      invariant remaining <= sg && first in sg - remaining
      invariant IsExtent(sg - remaining, box)
      decreases remaining
    {
      var v :| v in remaining;
      remaining := remaining - {v};
      box := Box(Min(box.minBX, v.bX), Max(box.maxBX, v.bX), Min(box.minBY, v.bY), Max(box.maxBY, v.bY),
                 Min(box.minZ, v.z100i), Max(box.maxZ, v.z100i));
    }
  }

  function Min(a: int, b: int): int
  {
    if a <= b then a else b
  }

  function Max(a: int, b: int): int
  {
    if a >= b then a else b
  }

  class Builder {
    const x1: real
    const y1: real
    const z1: int
    const x2: real
    const y2: real
    const z2: int
    const step: real
    const blockWidth: nat
    const blockHeight: nat
    /** m_floorData: one list per block, row-major; null where no floor was found. */
    var floorData: FloorData

    predicate Valid()
      reads this
    {
      |floorData| == blockWidth * blockHeight
    }

    constructor (x1: real, y1: real, z1: int, x2: real, y2: real, z2: int, step: real)
      requires x1 < x2 && y1 < y2 && step > 0.0
      ensures this.x1 == x1 && this.y1 == y1 && this.z1 == z1 && this.x2 == x2 && this.y2 == y2 && this.z2 == z2
      ensures this.step == step
      ensures blockWidth == BlockCount(x1, x2, step) && blockHeight == BlockCount(y1, y2, step)
      ensures Valid() && forall i :: 0 <= i < |floorData| ==> floorData[i].None?
    {
      this.x1, this.y1, this.z1 := x1, y1, z1;
      this.x2, this.y2, this.z2 := x2, y2, z2;
      this.step := step;
      blockWidth := BlockCount(x1, x2, step);
      blockHeight := BlockCount(y1, y2, step);
      new;
      floorData := seq(blockWidth * blockHeight, _ => None);
    }

    /**
     * `new NavMeshBuilder(x1, y1, z1, x2, y2, z2, step)`: the bounds must be ordered and
     * the minimum corner must not be negative; the grid starts with no floors.
     */
    static method Create(x1: real, y1: real, z1: int, x2: real, y2: real, z2: int, step: real) returns (r: Result<Builder>)
      requires step > 0.0
      ensures BoundsError(x1, y1, z1, x2, y2, z2).Some? ==> r == Err(BoundsError(x1, y1, z1, x2, y2, z2).value)
      ensures BoundsError(x1, y1, z1, x2, y2, z2).None? ==>
        && r.Ok? && fresh(r.value) && r.value.Valid()
        && r.value.x1 == x1 && r.value.y1 == y1 && r.value.z1 == z1 && r.value.x2 == x2 && r.value.y2 == y2
        && r.value.z2 == z2 && r.value.step == step
        && r.value.blockWidth == BlockCount(x1, x2, step) && r.value.blockHeight == BlockCount(y1, y2, step)
        && forall i :: 0 <= i < |r.value.floorData| ==> r.value.floorData[i].None?
    {
      var e := BoundsError(x1, y1, z1, x2, y2, z2);
      if e.Some? {
        return Err(e.value);
      }
      var b := new Builder(x1, y1, z1, x2, y2, z2, step);
      r := Ok(b);
    }

    /**
     * GetBlockIndexFromWorld: the block under a point, offset by half a step so a point
     * near a block's corner lands on it. The guard lets the index one past the end through.
     */
    function BlockIndexFromWorld(x: real, y: real): (r: Result<int>)
      requires step > 0.0
      reads this
      ensures r.Ok? ==> 0 <= r.value <= |floorData|
    {
      var halfStep := step / 2.0;
      var px := CsMath.Truncate((x + halfStep - x1) / step);
      var py := CsMath.Truncate((y + halfStep - y1) / step);
      var i := py * blockWidth + px;
      if i < 0 || i > |floorData| then Err(ArgumentOutOfRange) else Ok(i)
    }

    /** The corner of each block maps back to that block. */
    lemma BlockIndexOfCorner(col: nat, row: nat)
      requires step > 0.0 && row * blockWidth + col < |floorData|
      ensures BlockIndexFromWorld(x1 + col as real * step, y1 + row as real * step) == Ok(row * blockWidth + col)
    {
      var x, y := x1 + col as real * step, y1 + row as real * step;
      BlockOfCorner(x1, col, step);
      BlockOfCorner(y1, row, step);
      var px := CsMath.Truncate((x + step / 2.0 - x1) / step);
      var py := CsMath.Truncate((y + step / 2.0 - y1) / step);
      assert px == col && py == row;
      assert py * blockWidth + px == row * blockWidth + col;
    }

    static lemma BlockOfCorner(lo: real, b: nat, step: real)
      requires step > 0.0
      ensures CsMath.Truncate((lo + b as real * step + step / 2.0 - lo) / step) == b
    {
      var a := lo + b as real * step + step / 2.0 - lo;
      var p := b as real * step;
      assert a == p + step / 2.0;
      assert (b as real + 0.5) * step == p + 0.5 * step;
      QuotientOf(a, step, b as real + 0.5);
      assert (b as real + 0.5).Floor == b;
    }

    /**
     * AddFloorPoint: appends a floor at height z, in hundredths truncated toward zero, to
     * the block under (x, y), with every direction blocked.
     */
    method AddFloorPoint(x: real, y: real, z: real) returns (r: Result<()>)
      requires step > 0.0 && -0x8000_0000 <= CsMath.Truncate(z * 100.0) < 0x8000_0000
      modifies this
      ensures BlockIndexFromWorld(x, y).Err? ==> r == Err(ArgumentOutOfRange) && floorData == old(floorData)
      ensures BlockIndexFromWorld(x, y) == Ok(|old(floorData)|) ==> r == Err(IndexOutOfRange) && floorData == old(floorData)
      ensures r.Ok? <==> BlockIndexFromWorld(x, y).Ok? && BlockIndexFromWorld(x, y).value < |old(floorData)|
      ensures r.Ok? ==>
        var i := BlockIndexFromWorld(x, y).value;
        var list := if old(floorData)[i].Some? then old(floorData)[i].value else [];
        floorData == old(floorData)[i := Some(list + [FloorDesc(CsMath.Truncate(z * 100.0), 0xFF)])]
    {
      var i :- BlockIndexFromWorld(x, y);
      if i == |floorData| {
        return Err(IndexOutOfRange);
      }
      var list := if floorData[i].Some? then floorData[i].value else [];
      floorData := floorData[i := Some(list + [FloorDesc(CsMath.Truncate(z * 100.0), 0xFF)])];
      r := Ok(());
    }

    // --- Edge gathering ---

    /**
     * CollectEdgesBetweenFloorLists: for each floor of the centre block that is open toward
     * the neighbour, an edge to the first neighbour floor that is open back and within the
     * height step.
     */
    method CollectEdgesBetweenFloorLists(cx: int, cy: int, center: seq<FloorDesc>, nx: int, ny: int, edgesIn: Edges)
      returns (edges: Edges)
      requires IsUnitOffset(Point(nx - cx, ny - cy))
      ensures edges == CollectEdges(floorData, blockWidth, blockHeight, edgesIn, cx, cy, center, nx, ny)
    {
      edges := edgesIn;
      var neighbor := ListAt(floorData, blockWidth, blockHeight, nx, ny);
      if neighbor.None? {
        return;
      }
      var to := DetermineDirection(cx, cy, nx, ny).value;
      var back := GetInverseDirection(to);
      var i := 0;
      while i < |center|
        invariant 0 <= i <= |center|
        invariant edges == CollectFloors(edgesIn, cx, cy, center[..i], nx, ny, neighbor.value, to, back)
      {
        CollectFloorsStep(edgesIn, cx, cy, center, i, nx, ny, neighbor.value, to, back);
        edges := LinkOne(cx, cy, center[i], nx, ny, neighbor.value, to, back, edges);
        i := i + 1;
      }
      assert center[..|center|] == center;
    }

    static lemma CollectFloorsStep(e: Edges, cx: int, cy: int, center: seq<FloorDesc>, i: nat, nx: int, ny: int,
                                   neighbor: seq<FloorDesc>, to: Flags, back: Flags)
      requires i < |center|
      ensures CollectFloors(e, cx, cy, center[..i + 1], nx, ny, neighbor, to, back)
           == LinkFloor(CollectFloors(e, cx, cy, center[..i], nx, ny, neighbor, to, back), cx, cy, center[i], nx, ny, neighbor, to, back)
    {
      assert center[..i + 1][..i] == center[..i];
    }

    /** One pass of the outer loop of CollectEdgesBetweenFloorLists. */
    static method LinkOne(cx: int, cy: int, floor: FloorDesc, nx: int, ny: int, neighbor: seq<FloorDesc>,
                          to: Flags, back: Flags, edgesIn: Edges) returns (edges: Edges)
      ensures edges == LinkFloor(edgesIn, cx, cy, floor, nx, ny, neighbor, to, back)
    {
      edges := edgesIn;
      if Blocked(floor, to) {
        return;
      }
      var g := FindLink(floor, neighbor, back);
      if g.Some? {
        edges := AddEdge(edges, Vertex(cx, cy, floor.z100i), Vertex(nx, ny, g.value.z100i));
      }
    }

    /** The inner loop of CollectEdgesBetweenFloorLists: the first neighbour floor open back and within the step. */
    static method FindLink(floor: FloorDesc, neighbor: seq<FloorDesc>, back: Flags) returns (g: Option<FloorDesc>)
      ensures g == FirstLink(neighbor, floor, back)
    {
      var j := 0;
      while j < |neighbor|
        invariant 0 <= j <= |neighbor|
        invariant forall k :: 0 <= k < j ==> !Links(floor, neighbor[k], back)
      {
        var n := neighbor[j];
        if Blocked(n, back) || CsMath.Abs(floor.z100i - n.z100i) > MaxZStep100 {
          j := j + 1;
          continue;
        }
        FirstLinkAt(neighbor, floor, back, j);
        return Some(n);
      }
      return None;
    }

    /**
     * GatherEdgeVertices: every block with floors, row cy row, collects its edges toward
     * the eight blocks around it in the order top, top-right, right, bottom-right, bottom,
     * bottom-left, left, top-left.
     */
    method GatherEdgeVertices() returns (edges: Edges)
      ensures edges == Gathered(floorData, blockWidth, blockHeight)
    {
      var fd, w, h := floorData, blockWidth, blockHeight;
      edges := map[];
      var blockY := 0;
      while blockY < h
        invariant 0 <= blockY <= h
        invariant edges == GatherRows(fd, w, h, blockY)
      {
        var blockX := 0;
        while blockX < w
          invariant 0 <= blockX <= w
          invariant edges == GatherCells(fd, w, h, blockY, blockX)
        {
          edges := GatherBlock(blockX, blockY, edges);
          blockX := blockX + 1;
        }
        blockY := blockY + 1;
      }
    }

    /** The body of GatherEdgeVertices for one block. */
    method GatherBlock(x: int, y: int, edgesIn: Edges) returns (edges: Edges)
      ensures edges == CellEdges(floorData, blockWidth, blockHeight, edgesIn, x, y)
    {
      var fd, w, h := floorData, blockWidth, blockHeight;
      edges := edgesIn;
      var center := ListAt(fd, w, h, x, y);
      if center.None? {
        return;
      }
      var c := center.value;
      // top, top-right, right, bottom-right, bottom, bottom-left, left, top-left
      edges := CollectToward(x, y, c, 1, edges, edgesIn);
      edges := CollectToward(x, y, c, 2, edges, edgesIn);
      edges := CollectToward(x, y, c, 3, edges, edgesIn);
      edges := CollectToward(x, y, c, 4, edges, edgesIn);
      edges := CollectToward(x, y, c, 5, edges, edgesIn);
      edges := CollectToward(x, y, c, 6, edges, edgesIn);
      edges := CollectToward(x, y, c, 7, edges, edgesIn);
      edges := CollectToward(x, y, c, 8, edges, edgesIn);
    }

    /** The k-th call of GatherEdgeVertices' body, toward the block at Offsets[k - 1]. */
    method CollectToward(x: int, y: int, c: seq<FloorDesc>, k: nat, edgesIn: Edges, ghost e0: Edges) returns (edges: Edges)
      requires 1 <= k <= 8 && edgesIn == CollectAround(floorData, blockWidth, blockHeight, e0, x, y, c, k - 1)
      ensures edges == CollectAround(floorData, blockWidth, blockHeight, e0, x, y, c, k)
    {
      var o := Offsets[k - 1];
      edges := CollectEdgesBetweenFloorLists(x, y, c, x + o.x, y + o.y, edgesIn);
    }

    // --- FixDirectionFlagsToMatchSubgraphs ---

    /** The errors the repair pass can throw. */
    static predicate FixError(e: string)
    {
      e in {KeyNotFound, InvalidOperation, IndexOutOfRange, NullReference, VertexMissing, NeighborMissing}
    }

    /**
     * FixDirectionFlagsToMatchSubgraphs: block every direction of every floor, then open,
     * for each edge leaving a vertex of a kept subgraph, the direction toward the neighbour
     * on the vertex's floor and the direction back on the neighbour's floor. The pass
     * throws exactly when some vertex has no entry, some edge is not between neighbouring
     * blocks, or some end of an edge has no floor at its height; on a throw the floors
     * keep their heights but their flags are left half repaired.
     */
    method FixDirectionFlagsToMatchSubgraphs(edges: Edges, subgraphs: seq<set<EdgeVertex>>)
      returns (r: Result<()>, ghost order: seq<Request>)
      modifies this
      ensures SameShape(floorData, old(floorData))
      ensures r.Ok? <==> AllFixable(old(floorData), blockWidth, edges, subgraphs)
      ensures r.Err? ==> FixError(r.error)
      ensures r.Ok? ==> (forall q :: q in order <==> IsRequest(edges, subgraphs, q))
                        && floorData == ApplyAll(Blank(old(floorData)), blockWidth, order)
    {
      ghost var base := floorData;
      BlockAll();
      ghost var start := floorData;
      order := [];
      var i := 0;
      while i < |subgraphs|
        invariant 0 <= i <= |subgraphs|
        invariant SameShape(floorData, base) && floorData == ApplyAll(start, blockWidth, order)
        invariant AllFixable(base, blockWidth, edges, subgraphs[..i])
        invariant forall q :: q in order <==> IsRequest(edges, subgraphs[..i], q)
      {
        ghost var before := order;
        r, order := FixSubgraph(edges, subgraphs[i], base, start, order);
        assert subgraphs[..i + 1] == subgraphs[..i] + [subgraphs[i]];
        AllFixableSnoc(base, blockWidth, edges, subgraphs[..i], subgraphs[i]);
        if r.Err? {
          AllFixableInfix(base, blockWidth, edges, subgraphs, i + 1);
          return;
        }
        forall q ensures q in order <==> IsRequest(edges, subgraphs[..i + 1], q) {
          IsRequestSnoc(edges, subgraphs[..i], subgraphs[i], q);
        }
        i := i + 1;
      }
      assert subgraphs[..i] == subgraphs;
      r := Ok(());
    }

    /** A pass that runs through all subgraphs runs through the first n. */
    static lemma AllFixableInfix(fd: FloorData, w: nat, edges: Edges, ss: seq<set<EdgeVertex>>, n: nat)
      requires n <= |ss|
      ensures AllFixable(fd, w, edges, ss) ==> AllFixable(fd, w, edges, ss[..n])
    {
      assert forall i :: 0 <= i < n ==> ss[..n][i] == ss[i];
    }

    /** The first loop of the pass: every floor of every non-null block gets flags 0xFF. */
    method BlockAll()
      modifies this
      ensures floorData == Blank(old(floorData))
    {
      ghost var base := floorData;
      var i := 0;
      while i < |floorData|
        invariant 0 <= i <= |floorData| == |base|
        invariant forall k :: 0 <= k < i ==> floorData[k] == Blank(base)[k]
        invariant forall k :: i <= k < |base| ==> floorData[k] == base[k]
      {
        if floorData[i].Some? {
          var list := BlockList(floorData[i].value);
          floorData := floorData[i := Some(list)];
        }
        i := i + 1;
      }
      assert floorData == Blank(base);
    }

    static method BlockList(list: seq<FloorDesc>) returns (r: seq<FloorDesc>)
      ensures r == BlankList(list)
    {
      r := list;
      var i := 0;
      while i < |r|
        invariant 0 <= i <= |r| == |list|
        invariant forall k :: 0 <= k < i ==> r[k] == FloorDesc(list[k].z100i, 0xFF)
        invariant forall k :: i <= k < |r| ==> r[k] == list[k]
      {
        r := r[i := FloorDesc(r[i].z100i, 0xFF)];
        i := i + 1;
      }
    }

    /**
     * `foreach (var v in sg)`: the vertices are visited in whatever order the set gives
     * them. `shape` is the data before the pass: the heights the searches look at.
     */
    method FixSubgraph(edges: Edges, sg: set<EdgeVertex>, ghost shape: FloorData, ghost start: FloorData,
                       ghost before: seq<Request>)
      returns (r: Result<()>, ghost done: seq<Request>)
      requires SameShape(floorData, shape) && floorData == ApplyAll(start, blockWidth, before)
      modifies this
      ensures SameShape(floorData, shape)
      ensures r.Ok? <==> forall v :: v in sg ==> VertexFixable(shape, blockWidth, edges, v)
      ensures r.Err? ==> FixError(r.error)
      ensures r.Ok? ==> floorData == ApplyAll(start, blockWidth, done)
                        && forall q :: q in done <==> q in before || exists v :: v in sg && RequestAt(edges, v, q)
    {
      var remaining := sg;
      done := before;
      while remaining != {}
        invariant remaining <= sg
        invariant SameShape(floorData, shape) && floorData == ApplyAll(start, blockWidth, done)
        invariant forall v :: v in sg - remaining ==> VertexFixable(shape, blockWidth, edges, v)
        invariant forall q :: q in done <==> q in before || exists v :: v in sg - remaining && RequestAt(edges, v, q)
        decreases remaining
      {
        var v :| v in remaining;
        remaining := remaining - {v};
        ghost var prev := done;
        r, done := FixVertex(edges, v, shape, start, done);
        if r.Err? {
          return;
        }
        assert forall q :: q in done <==> q in prev || RequestAt(edges, v, q);
      }
      r := Ok(());
    }

    /** `foreach (var n in edges[v])`; a vertex without an entry makes the lookup throw. */
    method FixVertex(edges: Edges, v: EdgeVertex, ghost shape: FloorData, ghost start: FloorData,
                     ghost before: seq<Request>)
      returns (r: Result<()>, ghost done: seq<Request>)
      requires SameShape(floorData, shape) && floorData == ApplyAll(start, blockWidth, before)
      modifies this
      ensures SameShape(floorData, shape)
      ensures r.Ok? <==> VertexFixable(shape, blockWidth, edges, v)
      ensures r.Err? ==> FixError(r.error)
      ensures r.Ok? ==> floorData == ApplyAll(start, blockWidth, done)
                        && forall q :: q in done <==> q in before || RequestAt(edges, v, q)
    {
      done := before;
      if v !in edges {
        return Err(KeyNotFound), done;
      }
      var ns := edges[v];
      r, done := FixEdges(v, ns, shape, start, before);
      EdgesFixableAll(shape, blockWidth, v, ns);
      if r.Ok? {
        forall q ensures (q in done <==> q in before || RequestAt(edges, v, q)) {
          EdgeRequestsMembers(before, v, ns, q);
        }
      }
    }

    /** The loop over the neighbours of one vertex: each edge in order, stopping at the first that throws. */
    method FixEdges(v: EdgeVertex, ns: seq<EdgeVertex>, ghost shape: FloorData, ghost start: FloorData,
                    ghost before: seq<Request>)
      returns (r: Result<()>, ghost done: seq<Request>)
      requires SameShape(floorData, shape) && floorData == ApplyAll(start, blockWidth, before)
      modifies this
      ensures SameShape(floorData, shape)
      ensures r.Ok? <==> EdgesFixable(shape, blockWidth, v, ns)
      ensures r.Err? ==> FixError(r.error)
      ensures r.Ok? ==> done == EdgeRequests(before, v, ns) && floorData == ApplyAll(start, blockWidth, done)
    {
      done := before;
      var i := 0;
      while i < |ns|
        invariant 0 <= i <= |ns|
        invariant SameShape(floorData, shape) && floorData == ApplyAll(start, blockWidth, done)
        invariant EdgesFixable(shape, blockWidth, v, ns[..i])
        invariant done == EdgeRequests(before, v, ns[..i])
      {
        ghost var prev := done;
        r, done := FixEdge(v, ns[i], shape, start, done);
        if r.Err? {
          EdgeUnfixable(shape, blockWidth, v, ns, i);
          return;
        }
        EdgesStep(shape, blockWidth, v, ns, i, before, prev);
        i := i + 1;
      }
      assert ns[..i] == ns;
      r := Ok(());
    }

    /** The body of the innermost loop: both ends of the edge from v to n. */
    method FixEdge(v: EdgeVertex, n: EdgeVertex, ghost shape: FloorData, ghost start: FloorData, ghost before: seq<Request>)
      returns (r: Result<()>, ghost done: seq<Request>)
      requires SameShape(floorData, shape) && floorData == ApplyAll(start, blockWidth, before)
      modifies this
      ensures SameShape(floorData, shape)
      ensures r.Ok? <==> EdgeFixable(shape, blockWidth, v, n)
      ensures r.Err? ==> FixError(r.error)
      ensures r.Ok? ==> done == before + [ToNeighbor(v, n)] + [FromNeighbor(v, n)] && floorData == ApplyAll(start, blockWidth, done)
    {
      done := before;
      EdgeFixableShape(floorData, shape, blockWidth, v, n);
      var dirToNeighbor := DetermineDirection(v.bX, v.bY, n.bX, n.bY);
      if dirToNeighbor.Err? {
        return Err(dirToNeighbor.error), done;
      }
      var dirFromNeighbor := GetInverseDirection(dirToNeighbor.value);
      ghost var pre := floorData;
      r := UnblockFloor(Request(v, dirToNeighbor.value), VertexMissing);
      if r.Err? {
        return;
      }
      ghost var mid := floorData;
      SameShapeTrans(mid, pre, shape);
      ApplyAllSnoc(start, blockWidth, before, ToNeighbor(v, n));
      ShapeHits(mid, pre, blockWidth, Request(n, 0));
      r := UnblockFloor(Request(n, dirFromNeighbor), NeighborMissing);
      SameShapeTrans(floorData, mid, shape);
      if r.Err? {
        return;
      }
      ApplyAllSnoc(start, blockWidth, before + [ToNeighbor(v, n)], FromNeighbor(v, n));
      done := before + [ToNeighbor(v, n)] + [FromNeighbor(v, n)];
    }

    /**
     * The search for the floor of a vertex: the block must be in the array and not null,
     * and the first floor at the vertex's height loses the bits of the request's direction.
     */
    method UnblockFloor(q: Request, missing: string) returns (r: Result<()>)
      modifies this
      ensures r.Ok? <==> Findable(old(floorData), blockWidth, q.target)
      ensures r.Ok? ==> floorData == Unblock(old(floorData), blockWidth, q)
      ensures r.Err? ==> floorData == old(floorData) && r.error == MissingError(floorData, q.target, missing)
    {
      var j :- FindFloor(q.target, missing);
      var i := q.target.bY * blockWidth + q.target.bX;
      var list := floorData[i].value;
      floorData := floorData[i := Some(list[j := FloorDesc(q.target.z100i, ClearBits(list[j].directionFlags, q.dir))])];
      r := Ok(());
    }

    /** The exception a search for the floor of v throws: the array index, the null list, or `missing`. */
    function MissingError(fd: FloorData, v: EdgeVertex, missing: string): string
      reads this
    {
      var i := CellIndex(blockWidth, v);
      if i >= |fd| then IndexOutOfRange else if fd[i].None? then NullReference else missing
    }

    /** The loop that looks for the first floor of v's block at v's height. */
    method FindFloor(v: EdgeVertex, missing: string) returns (r: Result<nat>)
      ensures r.Ok? <==> Findable(floorData, blockWidth, v)
      ensures r.Ok? ==> r.value == FirstAt(floorData[CellIndex(blockWidth, v)].value, v.z100i)
      ensures r.Err? ==> r.error == MissingError(floorData, v, missing)
    {
      var i := v.bY * blockWidth + v.bX;
      if i >= |floorData| {
        return Err(IndexOutOfRange);
      }
      if floorData[i].None? {
        return Err(NullReference);
      }
      var list := floorData[i].value;
      var j := 0;
      while j < |list|
        invariant 0 <= j <= |list|
        invariant forall k :: 0 <= k < j ==> list[k].z100i != v.z100i
      {
        if list[j].z100i == v.z100i {
          FirstAtIndex(list, v.z100i, j);
          return Ok(j);
        }
        j := j + 1;
      }
      return Err(missing);
    }

    // --- The validators ---

    /**
     * ValidateAllSubgraphVerticesExistInFloorData: every vertex of every subgraph has a
     * floor at its height in its block.
     */
    method ValidateAllSubgraphVerticesExistInFloorData(subgraphs: seq<set<EdgeVertex>>) returns (r: Result<()>)
      ensures r.Ok? <==> forall i, v :: 0 <= i < |subgraphs| && v in subgraphs[i] ==> Findable(floorData, blockWidth, v)
      ensures r.Err? ==> r.error in {IndexOutOfRange, NullReference, VertexNotFound}
    {
      var i := 0;
      while i < |subgraphs|
        invariant 0 <= i <= |subgraphs|
        invariant forall k, v :: 0 <= k < i && v in subgraphs[k] ==> Findable(floorData, blockWidth, v)
      {
        var remaining := subgraphs[i];
        while remaining != {}
          invariant remaining <= subgraphs[i]
          invariant forall v :: v in subgraphs[i] - remaining ==> Findable(floorData, blockWidth, v)
          decreases remaining
        {
          var v :| v in remaining;
          remaining := remaining - {v};
          var found := FindFloor(v, VertexNotFound);
          if found.Err? {
            return Err(found.error);
          }
        }
        i := i + 1;
      }
      r := Ok(());
    }

    /**
     * ValidateEdgesAtBoundsAreBlocked: on the outer columns and rows of each subgraph, the
     * floors at a vertex's height are blocked toward the outside. Every vertex's block must
     * be in the array; a null list throws only for a vertex on the rim.
     */
    method ValidateEdgesAtBoundsAreBlocked(subgraphs: seq<set<EdgeVertex>>) returns (r: Result<()>)
      ensures r.Ok? <==> forall i, v :: 0 <= i < |subgraphs| && v in subgraphs[i] ==> RimBlocked(floorData, blockWidth, subgraphs[i], v)
      ensures r.Err? ==> r.error in {IndexOutOfRange, NullReference, LeftOpen, RightOpen, BottomOpen, TopOpen}
    {
      var i := 0;
      while i < |subgraphs|
        invariant 0 <= i <= |subgraphs|
        invariant forall k, v :: 0 <= k < i && v in subgraphs[k] ==> RimBlocked(floorData, blockWidth, subgraphs[k], v)
      {
        r := ValidateRim(subgraphs[i]);
        if r.Err? {
          return;
        }
        i := i + 1;
      }
      r := Ok(());
    }

    /** The body of ValidateEdgesAtBoundsAreBlocked for one subgraph. */
    method ValidateRim(sg: set<EdgeVertex>) returns (r: Result<()>)
      ensures r.Ok? <==> forall v :: v in sg ==> RimBlocked(floorData, blockWidth, sg, v)
      ensures r.Err? ==> r.error in {IndexOutOfRange, NullReference, LeftOpen, RightOpen, BottomOpen, TopOpen}
    {
      if sg == {} {
        return Ok(());
      }
      var box := Extent(sg);
      var remaining := sg;
      while remaining != {}
        invariant remaining <= sg
        invariant forall v :: v in sg - remaining ==> RimBlocked(floorData, blockWidth, sg, v)
        decreases remaining
      {
        var v :| v in remaining;
        remaining := remaining - {v};
        r := CheckRim(sg, box, v);
        if r.Err? {
          return;
        }
      }
      r := Ok(());
    }

    /** The four tests of one vertex, in the order left, right, bottom, top. */
    method CheckRim(sg: set<EdgeVertex>, box: Box, v: EdgeVertex) returns (r: Result<()>)
      requires IsExtent(sg, box) && v in sg
      ensures r.Ok? <==> RimBlocked(floorData, blockWidth, sg, v)
      ensures r.Err? ==> r.error in {IndexOutOfRange, NullReference, LeftOpen, RightOpen, BottomOpen, TopOpen}
    {
      var i := v.bY * blockWidth + v.bX;
      if i >= |floorData| {
        return Err(IndexOutOfRange);
      }
      RimSides(floorData, blockWidth, sg, box, v);
      r := CheckSides(floorData[i], v.z100i, v.bX == box.minBX, v.bX == box.maxBX, v.bY == box.minBY, v.bY == box.maxBY);
    }

    /** The side tests of one cell's list, for the rims the vertex lies on. */
    static method CheckSides(data: Option<seq<FloorDesc>>, z: int, left: bool, right: bool, bottom: bool, top: bool)
      returns (r: Result<()>)
      ensures r.Ok? <==> SidesBlocked(data, z, left, right, bottom, top)
      ensures r.Err? ==> r.error in {IndexOutOfRange, NullReference, LeftOpen, RightOpen, BottomOpen, TopOpen}
    {
      if left {
        r := CheckSide(data, z, LeftSide, LeftOpen);
        if r.Err? {
          return;
        }
      }
      if right {
        r := CheckSide(data, z, RightSide, RightOpen);
        if r.Err? {
          return;
        }
      }
      if bottom {
        r := CheckSide(data, z, BottomSide, BottomOpen);
        if r.Err? {
          return;
        }
      }
      if top {
        r := CheckSide(data, z, TopSide, TopOpen);
        if r.Err? {
          return;
        }
      }
      r := Ok(());
    }

    /** `foreach (var d in data) if (d.Z100i == z) if ((~d.DirectionFlags & mask) != 0) throw`. */
    static method CheckSide(data: Option<seq<FloorDesc>>, z: int, mask: Flags, open: string) returns (r: Result<()>)
      ensures r.Ok? <==> data.Some? && SideBlocked(data.value, z, mask)
      ensures r.Err? ==> r.error == if data.None? then NullReference else open
    {
      if data.None? {
        return Err(NullReference);
      }
      var list := data.value;
      var k := 0;
      while k < |list|
        invariant 0 <= k <= |list|
        invariant forall j :: 0 <= j < k ==> Shut(list[j], z, mask)
      {
        if list[k].z100i == z && !Bits(list[k].directionFlags) & mask != 0 {
          return Err(open);
        }
        k := k + 1;
      }
      r := Ok(());
    }

    // --- Compiling one subgraph ---

    /** The compiler the builder hands its grid to, with the step and slope as single-precision words. */
    function CompilerOf(single: real -> u32): (c: NavMeshCompiler.Compiler)
      reads this
      ensures Valid() ==> NavMeshCompiler.Valid(c)
    {
      NavMeshCompiler.Compiler(blockWidth, blockHeight, floorData, single(step), MaxZStepWord)
    }

    /**
     * r is what the compiler gives for the window the box spans, with its corner in world
     * units and the heights from `minZ / 100` to `maxZ / 100 + 1`.
     */
    ghost predicate CompilesBox(r: Result<CompiledNavMesh.Mesh>, subgraph: set<EdgeVertex>, box: Box, single: real -> u32)
      requires 0 <= box.minZ / 100 < box.maxZ / 100 + 1 < 0x8000_0000
      requires NavMeshCompiler.InRange(box.minZ / 100, box.maxZ / 100 + 1, subgraph)
      reads this
    {
      NavMeshCompiler.Compiles(r, CompilerOf(single), subgraph, box.minBX, box.minBY, box.maxBX - box.minBX + 1,
                               box.maxBY - box.minBY + 1, single(x1 + box.minBX as real * step),
                               single(y1 + box.minBY as real * step), box.minZ / 100, box.maxZ / 100 + 1)
    }

    /**
     * Build: the bounds of the subgraph decide the window the compiler encodes, its corner
     * in world units and the height range `(int)(minZ / 100f)` to `(int)(maxZ / 100f) + 1`.
     * `single` rounds a world coordinate to the float the builder computes it in and takes
     * its bits. An empty subgraph throws. The height range always holds the subgraph, and
     * a subgraph inside the grid always passes the compiler's argument checks.
     */
    method Build(subgraph: set<EdgeVertex>, single: real -> u32) returns (r: Result<CompiledNavMesh.Mesh>, ghost box: Box)
      requires Valid() && forall v :: v in subgraph ==> v.z100i >= 0
      ensures subgraph == {} ==> r == Err(InvalidOperation)
      ensures subgraph != {} ==> IsExtent(subgraph, box)
      ensures subgraph != {} ==>
        && 0 <= box.minZ / 100 < box.maxZ / 100 + 1 < 0x8000_0000
        && NavMeshCompiler.InRange(box.minZ / 100, box.maxZ / 100 + 1, subgraph)
      ensures subgraph != {} && (forall v :: v in subgraph ==> v.bX < blockWidth && v.bY < blockHeight) ==>
        NavMeshCompiler.ArgsOk(CompilerOf(single), box.minBX, box.minBY, box.maxBX - box.minBX + 1,
                               box.maxBY - box.minBY + 1, box.minZ / 100, box.maxZ / 100 + 1)
      ensures subgraph != {} ==> CompilesBox(r, subgraph, box, single)
    {
      box := Box(0, 0, 0, 0, 0, 0);
      if subgraph == {} {
        return Err(InvalidOperation), box;
      }
      var bounds := Extent(subgraph);
      box := bounds;
      var x1w := single(x1 + bounds.minBX as real * step);
      var y1w := single(y1 + bounds.minBY as real * step);
      HundredthsToUnits(bounds.minZ);
      HundredthsToUnits(bounds.maxZ);
      var z1 := CsMath.Truncate(bounds.minZ as real / 100.0);
      var z2 := CsMath.Truncate(bounds.maxZ as real / 100.0) + 1;
      var compiler := CompilerOf(single);
      var newBlockWidth := bounds.maxBX - bounds.minBX + 1;
      var newBlockHeight := bounds.maxBY - bounds.minBY + 1;
      assert z1 == bounds.minZ / 100 && z2 == bounds.maxZ / 100 + 1;
      assert 0 <= z1 < z2 < 0x8000_0000;
      assert NavMeshCompiler.InRange(z1, z2, subgraph);
      if forall v :: v in subgraph ==> v.bX < blockWidth && v.bY < blockHeight {
        assert NavMeshCompiler.ArgsOk(compiler, bounds.minBX, bounds.minBY, newBlockWidth, newBlockHeight, z1, z2);
      }
      r := NavMeshCompiler.Build(compiler, subgraph, bounds.minBX, bounds.minBY, newBlockWidth, newBlockHeight,
                                 x1w, y1w, z1, z2);
      assert CompilesBox(r, subgraph, box, single);
    }

    /** `(int)(z100 / 100.0f)` for a height at or above zero is the whole units below it. */
    static lemma HundredthsToUnits(z: int)
      requires z >= 0
      ensures CsMath.Truncate(z as real / 100.0) == z / 100
    {
      var q, m := z / 100, z % 100;
      assert z == 100 * q + m;
      assert z as real / 100.0 == q as real + m as real / 100.0;
    }

    // --- The direction tests of ComputeDirectionFlags ---

    /**
     * The floors of a neighbour list IsDirectionBlocked accepts as the step to take. `passes`
     * stands for the source's float tests of one neighbour floor (its arguments are the offset
     * and the floor): the height step, |z / 100f - f.Z100i / 100f| <= 0.8f in single
     * precision, and the ray casts.
     */
    static function Candidates(list: seq<FloorDesc>, dx: int, dy: int,
                               passes: (int, int, FloorDesc) -> bool): (c: seq<FloorDesc>)
      ensures forall f :: f in c <==> f in list && passes(dx, dy, f)
    {
      if list == [] then []
      else
        var init, f := list[..|list| - 1], list[|list| - 1];
        assert list == init + [f];
        Candidates(init, dx, dy, passes)
          + (if passes(dx, dy, f) then [f] else [])
    }

    /**
     * The verdict of IsDirectionBlocked for the floor at height z of block (x, y) toward
     * (x + dx, y + dy): leaving the grid or stepping onto a null block is blocked; otherwise
     * it is blocked when no floor qualifies, open when one does, and an error when several do.
     */
    function Toward(x: int, y: int, dx: int, dy: int, z: int, passes: (int, int, FloorDesc) -> bool): (r: Result<bool>)
      reads this
      ensures r.Err? ==> r.error == MultipleCandidates
    {
      match ListAt(floorData, blockWidth, blockHeight, x + dx, y + dy)
      case None => Ok(true)
      case Some(list) =>
        var n := |Candidates(list, dx, dy, passes)|;
        if n == 0 then Ok(true) else if n == 1 then Ok(false) else Err(MultipleCandidates)
    }

    /** IsDirectionBlocked: the loop over the neighbour's floors, which throws at the second candidate. */
    method IsDirectionBlocked(blockX: int, blockY: int, dx: int, dy: int, z: int, passes: (int, int, FloorDesc) -> bool)
      returns (r: Result<bool>)
      requires Valid()
      ensures r == Toward(blockX, blockY, dx, dy, z, passes)
      ensures r.Err? ==> r.error == MultipleCandidates
    {
      if blockX + dx < 0 || blockX + dx >= blockWidth || blockY + dy < 0 || blockY + dy >= blockHeight {
        return Ok(true);
      }
      RowMajor(blockX + dx, blockY + dy, blockWidth, blockHeight);
      var heights := floorData[(blockY + dy) * blockWidth + blockX + dx];
      if heights.None? {
        return Ok(true);
      }
      var list := heights.value;
      var result := true;
      var k := 0;
      while k < |list|
        invariant 0 <= k <= |list|
        invariant |Candidates(list[..k], dx, dy, passes)| <= 1
        invariant result <==> |Candidates(list[..k], dx, dy, passes)| == 0
      {
        var p := list[k];
        CandidatesStep(list, k, dx, dy, passes);
        k := k + 1;
        if !passes(dx, dy, p) {
          continue;
        }
        if !result {
          CandidatesGrow(list, k, dx, dy, passes);
          return Err(MultipleCandidates);
        }
        result := false;
      }
      assert list[..k] == list;
      r := Ok(result);
    }

    static lemma RowMajor(x: int, y: int, w: int, h: int)
      requires 0 <= x < w && 0 <= y < h
      ensures 0 <= y * w + x < w * h
    {
      assert y * w <= (h - 1) * w;
    }

    static lemma CandidatesStep(list: seq<FloorDesc>, k: nat, dx: int, dy: int, passes: (int, int, FloorDesc) -> bool)
      requires k < |list|
      ensures Candidates(list[..k + 1], dx, dy, passes)
           == Candidates(list[..k], dx, dy, passes)
              + (if passes(dx, dy, list[k]) then [list[k]] else [])
    {
      assert list[..k + 1][..k] == list[..k];
    }

    /** Candidates only grow as the loop goes on. */
    static lemma {:induction false} CandidatesGrow(list: seq<FloorDesc>, k: nat, dx: int, dy: int,
                                                   passes: (int, int, FloorDesc) -> bool)
      requires k <= |list|
      ensures |Candidates(list[..k], dx, dy, passes)| <= |Candidates(list, dx, dy, passes)|
      decreases |list| - k
    {
      if k == |list| {
        assert list[..k] == list;
      } else {
        CandidatesStep(list, k, dx, dy, passes);
        CandidatesGrow(list, k + 1, dx, dy, passes);
      }
    }

    /**
     * The eight verdicts combined into a flags byte: a direction's bit is set exactly when
     * that direction is blocked, and the first ambiguous direction is the error.
     */
    function BlockedFlags(x: int, y: int, z: int, passes: (int, int, FloorDesc) -> bool): (r: Result<Flags>)
      reads this
      ensures r.Ok? <==> && Toward(x, y, -1, 0, z, passes).Ok? && Toward(x, y, -1, 1, z, passes).Ok?
                         && Toward(x, y, 0, 1, z, passes).Ok? && Toward(x, y, 1, 1, z, passes).Ok?
                         && Toward(x, y, 1, 0, z, passes).Ok? && Toward(x, y, 1, -1, z, passes).Ok?
                         && Toward(x, y, 0, -1, z, passes).Ok? && Toward(x, y, -1, -1, z, passes).Ok?
      ensures r.Err? ==> r.error == MultipleCandidates
    {
      Combined(Toward(x, y, -1, 0, z, passes), Toward(x, y, -1, 1, z, passes), Toward(x, y, 0, 1, z, passes),
               Toward(x, y, 1, 1, z, passes), Toward(x, y, 1, 0, z, passes), Toward(x, y, 1, -1, z, passes),
               Toward(x, y, 0, -1, z, passes), Toward(x, y, -1, -1, z, passes))
    }

    /**
     * The verdicts of the eight directions, taken in order, folded into a flags byte; the
     * first verdict that is an error is the result.
     */
    static function Combined(left: Result<bool>, topLeft: Result<bool>, top: Result<bool>, topRight: Result<bool>,
                             right: Result<bool>, bottomRight: Result<bool>, bottom: Result<bool>,
                             bottomLeft: Result<bool>): (r: Result<Flags>)
      ensures r.Ok? <==> left.Ok? && topLeft.Ok? && top.Ok? && topRight.Ok? && right.Ok? && bottomRight.Ok?
                         && bottom.Ok? && bottomLeft.Ok?
      ensures r.Err? ==> Err(r.error) in [left, topLeft, top, topRight, right, bottomRight, bottom, bottomLeft]
    {
      var f1 :- Marked(left, 0, Left);
      var f2 :- Marked(topLeft, f1, TopLeft);
      var f3 :- Marked(top, f2, Top);
      var f4 :- Marked(topRight, f3, TopRight);
      var f5 :- Marked(right, f4, Right);
      var f6 :- Marked(bottomRight, f5, BottomRight);
      var f7 :- Marked(bottom, f6, Bottom);
      Marked(bottomLeft, f7, BottomLeft)
    }

    /** A direction's bit is set in the combined flags exactly when that direction is blocked. */
    lemma BlockedFlagsBits(x: int, y: int, z: int, passes: (int, int, FloorDesc) -> bool)
      ensures var r := BlockedFlags(x, y, z, passes);
        r.Ok? ==>
          && (r.value & Left != 0 <==> Toward(x, y, -1, 0, z, passes) == Ok(true))
          && (r.value & TopLeft != 0 <==> Toward(x, y, -1, 1, z, passes) == Ok(true))
          && (r.value & Top != 0 <==> Toward(x, y, 0, 1, z, passes) == Ok(true))
          && (r.value & TopRight != 0 <==> Toward(x, y, 1, 1, z, passes) == Ok(true))
          && (r.value & Right != 0 <==> Toward(x, y, 1, 0, z, passes) == Ok(true))
          && (r.value & BottomRight != 0 <==> Toward(x, y, 1, -1, z, passes) == Ok(true))
          && (r.value & Bottom != 0 <==> Toward(x, y, 0, -1, z, passes) == Ok(true))
          && (r.value & BottomLeft != 0 <==> Toward(x, y, -1, -1, z, passes) == Ok(true))
    {
      CombinedBits(Toward(x, y, -1, 0, z, passes), Toward(x, y, -1, 1, z, passes), Toward(x, y, 0, 1, z, passes),
                   Toward(x, y, 1, 1, z, passes), Toward(x, y, 1, 0, z, passes), Toward(x, y, 1, -1, z, passes),
                   Toward(x, y, 0, -1, z, passes), Toward(x, y, -1, -1, z, passes));
    }

    /** Folding the verdicts sets a direction's bit exactly when its verdict is "blocked". */
    static lemma CombinedBits(left: Result<bool>, topLeft: Result<bool>, top: Result<bool>, topRight: Result<bool>,
                              right: Result<bool>, bottomRight: Result<bool>, bottom: Result<bool>,
                              bottomLeft: Result<bool>)
      ensures var r := Combined(left, topLeft, top, topRight, right, bottomRight, bottom, bottomLeft);
        r.Ok? ==>
          && (r.value & Left != 0 <==> left == Ok(true)) && (r.value & TopLeft != 0 <==> topLeft == Ok(true))
          && (r.value & Top != 0 <==> top == Ok(true)) && (r.value & TopRight != 0 <==> topRight == Ok(true))
          && (r.value & Right != 0 <==> right == Ok(true))
          && (r.value & BottomRight != 0 <==> bottomRight == Ok(true))
          && (r.value & Bottom != 0 <==> bottom == Ok(true))
          && (r.value & BottomLeft != 0 <==> bottomLeft == Ok(true))
    {
      var r := Combined(left, topLeft, top, topRight, right, bottomRight, bottom, bottomLeft);
      if r.Ok? {
        var f0: Flags := 0;
        var f1 := Marked(left, f0, Left).value;
        var f2 := Marked(topLeft, f1, TopLeft).value;
        var f3 := Marked(top, f2, Top).value;
        var f4 := Marked(topRight, f3, TopRight).value;
        var f5 := Marked(right, f4, Right).value;
        var f6 := Marked(bottomRight, f5, BottomRight).value;
        var f7 := Marked(bottom, f6, Bottom).value;
        assert r == Marked(bottomLeft, f7, BottomLeft);
      }
    }

    /** `if (IsDirectionBlocked(...)) flags |= bit;` on the verdict of one direction. */
    static function Marked(verdict: Result<bool>, flags: Flags, bit: Flags): (r: Result<Flags>)
      ensures r.Ok? <==> verdict.Ok?
      ensures r.Err? ==> r.error == verdict.error
      ensures r.Ok? ==> r.value == if verdict.value then flags | bit else flags
    {
      var blocked :- verdict;
      Ok(if blocked then flags | bit else flags)
    }

    /** GetBlockedDirections: the eight tests in the order of the source, each of which may throw. */
    method GetBlockedDirections(blockX: int, blockY: int, z: int, passes: (int, int, FloorDesc) -> bool)
      returns (r: Result<byte>)
      requires Valid()
      ensures r.Ok? <==> BlockedFlags(blockX, blockY, z, passes).Ok?
      ensures r.Err? ==> r.error == MultipleCandidates
      ensures r.Ok? ==> Bits(r.value) == BlockedFlags(blockX, blockY, z, passes).value
    {
      var flags: Flags := 0;
      flags :- Mark(blockX, blockY, -1, 0, z, passes, flags, Left);
      flags :- Mark(blockX, blockY, -1, 1, z, passes, flags, TopLeft);
      flags :- Mark(blockX, blockY, 0, 1, z, passes, flags, Top);
      flags :- Mark(blockX, blockY, 1, 1, z, passes, flags, TopRight);
      flags :- Mark(blockX, blockY, 1, 0, z, passes, flags, Right);
      flags :- Mark(blockX, blockY, 1, -1, z, passes, flags, BottomRight);
      flags :- Mark(blockX, blockY, 0, -1, z, passes, flags, Bottom);
      flags :- Mark(blockX, blockY, -1, -1, z, passes, flags, BottomLeft);
      r := Ok(FlagByte(flags));
    }

    /** One test of GetBlockedDirections: the flags with the direction's bit added when it is blocked. */
    method Mark(blockX: int, blockY: int, dx: int, dy: int, z: int, passes: (int, int, FloorDesc) -> bool,
                flags: Flags, bit: Flags) returns (r: Result<Flags>)
      requires Valid()
      ensures r == Marked(Toward(blockX, blockY, dx, dy, z, passes), flags, bit)
    {
      var blocked :- IsDirectionBlocked(blockX, blockY, dx, dy, z, passes);
      r := Ok(if blocked then flags | bit else flags);
    }

    /** A flags byte as the C# byte it is stored in. */
    static function FlagByte(f: Flags): (b: byte)
      ensures Bits(b) == f
    {
      ValueBits(f);
      f as int
    }
  }
}
