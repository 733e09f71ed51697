/// The floor records the navigation-mesh builder collects per block, and the edge
/// relation it derives from them (NavMeshBuilder.cs): which floor of a block links to
/// which floor of each of the eight blocks around it.
module NavMeshFloors {
  import opened Outcome
  import opened Bytes
  import opened NavMeshUtil
  import CsMath

  /**
   * NavMeshBuilderFloorDesc: a floor height in hundredths of a world unit and its
   * blocked directions (0xFF, every direction blocked, unless given).
   */
  datatype FloorDesc = FloorDesc(z100i: i32, directionFlags: byte)

  /** EdgeVertex: a floor identified by its block coordinates and its height in hundredths. */
  datatype EdgeVertex = EdgeVertex(bX: u16, bY: u16, z100i: i32)

  /** The per-block floor lists, row-major; a block where nothing was found holds null. */
  type FloorData = seq<Option<seq<FloorDesc>>>

  /** The edge dictionary: each vertex and the neighbour vertices it links to, in the order found. */
  type Edges = map<EdgeVertex, seq<EdgeVertex>>

  /**
   * The builder's maximum height step, 0.8f, in hundredths. For integer hundredths d,
   * |d| / 100f > 0.8f holds exactly when |d| > 80: 80 / 100f rounds to the float 0.8f
   * itself and 81 / 100f is the float nearest 0.81.
   */
  const MaxZStep100 := 80

  /** The (ushort) cast of a block coordinate: the low 16 bits. */
  function ToU16(x: int): (v: u16)
    ensures 0 <= x < 0x1_0000 ==> v == x
  {
    x % 0x1_0000
  }

  /** The vertex of a floor of block (x, y), as the builder creates it. */
  function Vertex(x: int, y: int, z100i: i32): EdgeVertex
  {
    EdgeVertex(ToU16(x), ToU16(y), z100i)
  }

  /** A floor's flag for direction d is set. */
  predicate Blocked(f: FloorDesc, d: Flags)
  {
    Bits(f.directionFlags) & d != 0
  }

  /** GetFloorDescListNoCheck: the list of block (x, y), or null outside the grid. */
  function ListAt(fd: FloorData, w: int, h: int, x: int, y: int): Option<seq<FloorDesc>>
  {
    if 0 <= x < w && 0 <= y < h && 0 <= y * w + x < |fd| then fd[y * w + x] else None
  }

  /** Floor g of a neighbour block can be reached from floor f: g is open back toward f and within the height step. */
  predicate Links(f: FloorDesc, g: FloorDesc, back: Flags)
  {
    !Blocked(g, back) && CsMath.Abs(f.z100i - g.z100i) <= MaxZStep100
  }

  /** The first floor of a neighbour list that f links to; each floor links at most once per direction. */
  function FirstLink(neighbor: seq<FloorDesc>, f: FloorDesc, back: Flags): (r: Option<FloorDesc>)
    ensures r.Some? ==> r.value in neighbor && Links(f, r.value, back)
    ensures r.None? <==> forall j :: 0 <= j < |neighbor| ==> !Links(f, neighbor[j], back)
  {
    if neighbor == [] then None
    else if Links(f, neighbor[0], back) then Some(neighbor[0])
    else
      var r := FirstLink(neighbor[1..], f, back);
      assert forall j :: 1 <= j < |neighbor| ==> neighbor[j] == neighbor[1..][j - 1];
      r
  }

  /** The first floor f links to is the one a front-to-back scan stops at. */
  lemma {:induction false} FirstLinkAt(neighbor: seq<FloorDesc>, f: FloorDesc, back: Flags, j: nat)
    requires j < |neighbor| && Links(f, neighbor[j], back)
    requires forall k :: 0 <= k < j ==> !Links(f, neighbor[k], back)
    ensures FirstLink(neighbor, f, back) == Some(neighbor[j])
  {
    if j > 0 {
      assert !Links(f, neighbor[0], back);
      assert forall k :: 0 <= k < j - 1 ==> neighbor[1..][k] == neighbor[k + 1];
      FirstLinkAt(neighbor[1..], f, back, j - 1);
    }
  }

  /** `list.Add` on the edge list of a vertex, creating the list on first use. */
  function AddEdge(e: Edges, from: EdgeVertex, to: EdgeVertex): (r: Edges)
    ensures r.Keys == e.Keys + {from}
    ensures r[from] == (if from in e then e[from] else []) + [to]
    ensures forall v :: v in e && v != from ==> r[v] == e[v]
  {
    e[from := (if from in e then e[from] else []) + [to]]
  }

  /** One floor of the centre block: its edge to the first neighbour floor it links to, if any. */
  function LinkFloor(e: Edges, cx: int, cy: int, f: FloorDesc, nx: int, ny: int, neighbor: seq<FloorDesc>,
                     to: Flags, back: Flags): Edges
  {
    if Blocked(f, to) then e
    else match FirstLink(neighbor, f, back)
      case None => e
      case Some(g) => AddEdge(e, Vertex(cx, cy, f.z100i), Vertex(nx, ny, g.z100i))
  }

  /** The loop of CollectEdgesBetweenFloorLists over the floors of the centre block. */
  function CollectFloors(e: Edges, cx: int, cy: int, floors: seq<FloorDesc>, nx: int, ny: int,
                         neighbor: seq<FloorDesc>, to: Flags, back: Flags): Edges
  {
    if floors == [] then e
    else
      LinkFloor(CollectFloors(e, cx, cy, floors[..|floors| - 1], nx, ny, neighbor, to, back),
                cx, cy, floors[|floors| - 1], nx, ny, neighbor, to, back)
  }

  /** CollectEdgesBetweenFloorLists: nothing when the neighbour block is outside the grid or null. */
  function CollectEdges(fd: FloorData, w: int, h: int, e: Edges, cx: int, cy: int, center: seq<FloorDesc>,
                        nx: int, ny: int): Edges
    requires IsUnitOffset(Point(nx - cx, ny - cy))
  {
    match ListAt(fd, w, h, nx, ny)
    case None => e
    case Some(neighbor) =>
      var to := DetermineDirection(cx, cy, nx, ny).value;
      CollectFloors(e, cx, cy, center, nx, ny, neighbor, to, GetInverseDirection(to))
  }

  /** The eight neighbour offsets in the order GatherEdgeVertices visits them. */
  const Offsets: seq<Point> := [Point(0, 1), Point(1, 1), Point(1, 0), Point(1, -1),
                                Point(0, -1), Point(-1, -1), Point(-1, 0), Point(-1, 1)]

  /** Every step to a neighbouring block is one of the eight offsets. */
  function OffsetIndex(p: Point): (k: nat)
    requires IsUnitOffset(p)
    ensures k < 8 && Offsets[k] == p
  {
    if p == Point(0, 1) then 0 else if p == Point(1, 1) then 1 else if p == Point(1, 0) then 2
    else if p == Point(1, -1) then 3 else if p == Point(0, -1) then 4 else if p == Point(-1, -1) then 5
    else if p == Point(-1, 0) then 6 else 7
  }

  /** The first k of the eight calls GatherEdgeVertices makes for block (x, y). */
  function CollectAround(fd: FloorData, w: int, h: int, e: Edges, x: int, y: int, center: seq<FloorDesc>, k: nat): Edges
    requires k <= 8
  {
    if k == 0 then e
    else CollectEdges(fd, w, h, CollectAround(fd, w, h, e, x, y, center, k - 1), x, y, center,
                      x + Offsets[k - 1].x, y + Offsets[k - 1].y)
  }

  /** The edges of block (x, y); a null block adds none. */
  function CellEdges(fd: FloorData, w: int, h: int, e: Edges, x: int, y: int): Edges
  {
    match ListAt(fd, w, h, x, y)
    case None => e
    case Some(center) => CollectAround(fd, w, h, e, x, y, center, 8)
  }

  /** The edges after the first `rows` rows of blocks. */
  function GatherRows(fd: FloorData, w: nat, h: int, rows: nat): Edges
    decreases rows, 0
  {
    if rows == 0 then map[] else GatherCells(fd, w, h, rows - 1, w)
  }

  /** The edges after the first n blocks of row y. */
  function GatherCells(fd: FloorData, w: nat, h: int, y: nat, n: nat): Edges
    decreases y, n + 1
  {
    if n == 0 then GatherRows(fd, w, h, y) else CellEdges(fd, w, h, GatherCells(fd, w, h, y, n - 1), n - 1, y)
  }

  /** GatherEdgeVertices: the edges of every block, row by row. */
  function Gathered(fd: FloorData, w: nat, h: nat): Edges
  {
    GatherRows(fd, w, h, h)
  }

  // ---------------------------------------------------------------------------
  // Meaning of the edge dictionary

  /** e' holds every list of e, possibly with more entries appended. */
  predicate Grows(e: Edges, e': Edges)
  {
    forall v :: v in e ==> v in e' && e[v] <= e'[v]
  }

  lemma GrowsTrans(e1: Edges, e2: Edges, e3: Edges)
    requires Grows(e1, e2) && Grows(e2, e3)
    ensures Grows(e1, e3)
  {
    forall v | v in e1 ensures v in e3 && e1[v] <= e3[v] {
      assert e1[v] == e2[v][..|e1[v]|];
    }
  }

  /** Two floors of neighbouring blocks the builder joins. */
  predicate Linked(fd: FloorData, w: int, h: int, v: EdgeVertex, n: EdgeVertex)
  {
    && ListAt(fd, w, h, v.bX, v.bY).Some? && ListAt(fd, w, h, n.bX, n.bY).Some?
    && IsUnitOffset(Point(n.bX - v.bX, n.bY - v.bY))
    && LinkedFloors(ListAt(fd, w, h, v.bX, v.bY).value, ListAt(fd, w, h, n.bX, n.bY).value, v.z100i, n.z100i,
                    DetermineDirection(v.bX, v.bY, n.bX, n.bY).value)
  }

  /**
   * Some floor at height vz of the centre list is open toward the neighbour, and the
   * first neighbour floor it links to is at height nz.
   */
  predicate LinkedFloors(center: seq<FloorDesc>, neighbor: seq<FloorDesc>, vz: int, nz: int, to: Flags)
  {
    exists i :: 0 <= i < |center| && center[i].z100i == vz && LinkTarget(center[i], neighbor, to, nz)
  }

  predicate LinkTarget(f: FloorDesc, neighbor: seq<FloorDesc>, to: Flags, nz: int)
  {
    !Blocked(f, to) && FirstLink(neighbor, f, GetInverseDirection(to)).Some?
    && FirstLink(neighbor, f, GetInverseDirection(to)).value.z100i == nz
  }

  /** Every edge of the dictionary joins two floors of the grid. */
  predicate Sound(fd: FloorData, w: int, h: int, e: Edges)
  {
    forall v, n :: v in e && n in e[v] ==> Linked(fd, w, h, v, n)
  }

  /** Every edge leads to a vertex that has edges of its own. */
  predicate Closed(e: Edges)
  {
    forall v, n :: v in e && n in e[v] ==> n in e
  }

  /** Every edge list is non-empty: a vertex is a key only once it has an edge. */
  predicate NonEmptyLists(e: Edges)
  {
    forall v :: v in e ==> e[v] != []
  }

  /** Block coordinates a (ushort) cast keeps. */
  predicate SmallGrid(w: int, h: int)
  {
    0 <= w <= 0x1_0000 && 0 <= h <= 0x1_0000
  }

  /** Sound edges with a non-empty list per key, what every stage of GatherEdgeVertices keeps. */
  predicate WellFormedEdges(fd: FloorData, w: int, h: int, e: Edges)
  {
    Sound(fd, w, h, e) && NonEmptyLists(e)
  }

  lemma InPrefix<T>(x: T, s: seq<T>, t: seq<T>)
    requires x in s && s <= t
    ensures x in t
  {
    assert s == t[..|s|];
    var i :| 0 <= i < |s| && s[i] == x;
    assert t[i] == x;
  }

  lemma GrowsRefl(e: Edges)
    ensures Grows(e, e)
  {
  }

  lemma AddEdgeGrows(e: Edges, from: EdgeVertex, to: EdgeVertex)
    ensures Grows(e, AddEdge(e, from, to))
  {
  }

  /** The direction back from a neighbour is the inverse of the direction to it. */
  lemma DirectionBack(x1: int, y1: int, x2: int, y2: int)
    requires IsUnitOffset(Point(x2 - x1, y2 - y1))
    ensures IsUnitOffset(Point(x1 - x2, y1 - y2))
    ensures DetermineDirection(x2, y2, x1, y1).value == GetInverseDirection(DetermineDirection(x1, y1, x2, y2).value)
  {
  }

  // --- Growth: entries are only ever appended ---

  lemma LinkFloorGrows(e: Edges, cx: int, cy: int, f: FloorDesc, nx: int, ny: int, neighbor: seq<FloorDesc>,
                       to: Flags, back: Flags)
    ensures Grows(e, LinkFloor(e, cx, cy, f, nx, ny, neighbor, to, back))
  {
    if !Blocked(f, to) && FirstLink(neighbor, f, back).Some? {
      AddEdgeGrows(e, Vertex(cx, cy, f.z100i), Vertex(nx, ny, FirstLink(neighbor, f, back).value.z100i));
    }
  }

  lemma {:induction false} CollectFloorsGrows(e: Edges, cx: int, cy: int, floors: seq<FloorDesc>, nx: int, ny: int,
                                              neighbor: seq<FloorDesc>, to: Flags, back: Flags)
    ensures Grows(e, CollectFloors(e, cx, cy, floors, nx, ny, neighbor, to, back))
  {
    if floors == [] {
      GrowsRefl(e);
    } else {
      var pre := CollectFloors(e, cx, cy, floors[..|floors| - 1], nx, ny, neighbor, to, back);
      CollectFloorsGrows(e, cx, cy, floors[..|floors| - 1], nx, ny, neighbor, to, back);
      LinkFloorGrows(pre, cx, cy, floors[|floors| - 1], nx, ny, neighbor, to, back);
      GrowsTrans(e, pre, CollectFloors(e, cx, cy, floors, nx, ny, neighbor, to, back));
    }
  }

  lemma CollectEdgesGrows(fd: FloorData, w: int, h: int, e: Edges, cx: int, cy: int, center: seq<FloorDesc>, nx: int, ny: int)
    requires IsUnitOffset(Point(nx - cx, ny - cy))
    ensures Grows(e, CollectEdges(fd, w, h, e, cx, cy, center, nx, ny))
  {
    if ListAt(fd, w, h, nx, ny).Some? {
      var to := DetermineDirection(cx, cy, nx, ny).value;
      CollectFloorsGrows(e, cx, cy, center, nx, ny, ListAt(fd, w, h, nx, ny).value, to, GetInverseDirection(to));
    } else {
      GrowsRefl(e);
    }
  }

  lemma {:induction false} CollectAroundGrows(fd: FloorData, w: int, h: int, e: Edges, x: int, y: int,
                                              center: seq<FloorDesc>, j: nat, k: nat)
    requires j <= k <= 8
    ensures Grows(CollectAround(fd, w, h, e, x, y, center, j), CollectAround(fd, w, h, e, x, y, center, k))
  {
    if j == k {
      GrowsRefl(CollectAround(fd, w, h, e, x, y, center, j));
    } else {
      CollectAroundGrows(fd, w, h, e, x, y, center, j, k - 1);
      var pre := CollectAround(fd, w, h, e, x, y, center, k - 1);
      CollectEdgesGrows(fd, w, h, pre, x, y, center, x + Offsets[k - 1].x, y + Offsets[k - 1].y);
      GrowsTrans(CollectAround(fd, w, h, e, x, y, center, j), pre, CollectAround(fd, w, h, e, x, y, center, k));
    }
  }

  lemma CellEdgesGrows(fd: FloorData, w: int, h: int, e: Edges, x: int, y: int)
    ensures Grows(e, CellEdges(fd, w, h, e, x, y))
  {
    if ListAt(fd, w, h, x, y).Some? {
      CollectAroundGrows(fd, w, h, e, x, y, ListAt(fd, w, h, x, y).value, 0, 8);
    } else {
      GrowsRefl(e);
    }
  }

  lemma {:induction false} CellsGrow(fd: FloorData, w: nat, h: int, y: nat, n: nat, m: nat)
    requires n <= m
    ensures Grows(GatherCells(fd, w, h, y, n), GatherCells(fd, w, h, y, m))
  {
    if n == m {
      GrowsRefl(GatherCells(fd, w, h, y, n));
    } else {
      CellsGrow(fd, w, h, y, n, m - 1);
      CellEdgesGrows(fd, w, h, GatherCells(fd, w, h, y, m - 1), m - 1, y);
      GrowsTrans(GatherCells(fd, w, h, y, n), GatherCells(fd, w, h, y, m - 1), GatherCells(fd, w, h, y, m));
    }
  }

  lemma {:induction false} RowsGrow(fd: FloorData, w: nat, h: int, r1: nat, r2: nat)
    requires r1 <= r2
    ensures Grows(GatherRows(fd, w, h, r1), GatherRows(fd, w, h, r2))
  {
    if r1 == r2 {
      GrowsRefl(GatherRows(fd, w, h, r1));
    } else {
      RowsGrow(fd, w, h, r1, r2 - 1);
      CellsGrow(fd, w, h, r2 - 1, 0, w);
      GrowsTrans(GatherRows(fd, w, h, r1), GatherRows(fd, w, h, r2 - 1), GatherRows(fd, w, h, r2));
    }
  }

  // --- Completeness: every link the loops look for is recorded ---

  /** The edge of floor i of a list toward a neighbour, once the loop has passed it. */
  lemma {:induction false} CollectFloorsComplete(e: Edges, cx: int, cy: int, floors: seq<FloorDesc>, nx: int, ny: int,
                                                 neighbor: seq<FloorDesc>, to: Flags, back: Flags, i: nat)
    requires i < |floors| && !Blocked(floors[i], to) && FirstLink(neighbor, floors[i], back).Some?
    ensures var r := CollectFloors(e, cx, cy, floors, nx, ny, neighbor, to, back);
            var v := Vertex(cx, cy, floors[i].z100i);
            v in r && Vertex(nx, ny, FirstLink(neighbor, floors[i], back).value.z100i) in r[v]
  {
    var pre := floors[..|floors| - 1];
    var before := CollectFloors(e, cx, cy, pre, nx, ny, neighbor, to, back);
    if i < |floors| - 1 {
      assert pre[i] == floors[i];
      CollectFloorsComplete(e, cx, cy, pre, nx, ny, neighbor, to, back, i);
      LinkFloorGrows(before, cx, cy, floors[|floors| - 1], nx, ny, neighbor, to, back);
      var v := Vertex(cx, cy, floors[i].z100i);
      InPrefix(Vertex(nx, ny, FirstLink(neighbor, floors[i], back).value.z100i), before[v],
               CollectFloors(e, cx, cy, floors, nx, ny, neighbor, to, back)[v]);
    }
  }

  /** The edge of floor i of block (x, y) toward offset k is in the block's edges. */
  lemma CollectAroundComplete(fd: FloorData, w: int, h: int, e: Edges, x: int, y: int, center: seq<FloorDesc>,
                              i: nat, k: nat)
    requires i < |center| && k < 8
    requires ListAt(fd, w, h, x + Offsets[k].x, y + Offsets[k].y).Some?
    requires var to := DetermineDirection(x, y, x + Offsets[k].x, y + Offsets[k].y).value;
             !Blocked(center[i], to)
             && FirstLink(ListAt(fd, w, h, x + Offsets[k].x, y + Offsets[k].y).value, center[i], GetInverseDirection(to)).Some?
    ensures var r := CollectAround(fd, w, h, e, x, y, center, 8);
            var to := DetermineDirection(x, y, x + Offsets[k].x, y + Offsets[k].y).value;
            var g := FirstLink(ListAt(fd, w, h, x + Offsets[k].x, y + Offsets[k].y).value, center[i], GetInverseDirection(to)).value;
            var v := Vertex(x, y, center[i].z100i);
            v in r && Vertex(x + Offsets[k].x, y + Offsets[k].y, g.z100i) in r[v]
  {
    var nx, ny := x + Offsets[k].x, y + Offsets[k].y;
    var neighbor := ListAt(fd, w, h, nx, ny).value;
    var to := DetermineDirection(x, y, nx, ny).value;
    var pre := CollectAround(fd, w, h, e, x, y, center, k);
    CollectFloorsComplete(pre, x, y, center, nx, ny, neighbor, to, GetInverseDirection(to), i);
    var mid := CollectAround(fd, w, h, e, x, y, center, k + 1);
    assert mid == CollectEdges(fd, w, h, pre, x, y, center, nx, ny);
    assert mid == CollectFloors(pre, x, y, center, nx, ny, neighbor, to, GetInverseDirection(to));
    CollectAroundGrows(fd, w, h, e, x, y, center, k + 1, 8);
    var v := Vertex(x, y, center[i].z100i);
    var g := FirstLink(neighbor, center[i], GetInverseDirection(to)).value;
    InPrefix(Vertex(nx, ny, g.z100i), mid[v], CollectAround(fd, w, h, e, x, y, center, 8)[v]);
  }

  /**
   * GatherEdgeVertices is complete: for each floor of each block and each of the eight
   * directions, when the floor is open that way and links to a floor of that neighbour,
   * the edge to the first such floor is in the dictionary.
   */
  lemma GatheredComplete(fd: FloorData, w: nat, h: nat, x: nat, y: nat, i: nat, nx: int, ny: int)
    requires x < w && y < h && ListAt(fd, w, h, x, y).Some? && i < |ListAt(fd, w, h, x, y).value|
    requires IsUnitOffset(Point(nx - x, ny - y)) && ListAt(fd, w, h, nx, ny).Some?
    requires var to := DetermineDirection(x, y, nx, ny).value;
             var f := ListAt(fd, w, h, x, y).value[i];
             !Blocked(f, to) && FirstLink(ListAt(fd, w, h, nx, ny).value, f, GetInverseDirection(to)).Some?
    ensures var r := Gathered(fd, w, h);
            var to := DetermineDirection(x, y, nx, ny).value;
            var f := ListAt(fd, w, h, x, y).value[i];
            var g := FirstLink(ListAt(fd, w, h, nx, ny).value, f, GetInverseDirection(to)).value;
            Vertex(x, y, f.z100i) in r && Vertex(nx, ny, g.z100i) in r[Vertex(x, y, f.z100i)]
  {
    var center := ListAt(fd, w, h, x, y).value;
    var k := OffsetIndex(Point(nx - x, ny - y));
    assert x + Offsets[k].x == nx && y + Offsets[k].y == ny;
    var before := GatherCells(fd, w, h, y, x);
    CollectAroundComplete(fd, w, h, before, x, y, center, i, k);
    var cell := GatherCells(fd, w, h, y, x + 1);
    assert cell == CollectAround(fd, w, h, before, x, y, center, 8);
    CellsGrow(fd, w, h, y, x + 1, w);
    RowsGrow(fd, w, h, y + 1, h);
    GrowsTrans(cell, GatherRows(fd, w, h, y + 1), Gathered(fd, w, h));
    var to := DetermineDirection(x, y, nx, ny).value;
    var g := FirstLink(ListAt(fd, w, h, nx, ny).value, center[i], GetInverseDirection(to)).value;
    var v := Vertex(x, y, center[i].z100i);
    InPrefix(Vertex(nx, ny, g.z100i), cell[v], Gathered(fd, w, h)[v]);
  }

  // --- Soundness: every recorded edge joins two linked floors ---

  lemma AddEdgeWellFormed(fd: FloorData, w: int, h: int, e: Edges, from: EdgeVertex, to: EdgeVertex)
    requires WellFormedEdges(fd, w, h, e) && Linked(fd, w, h, from, to)
    ensures WellFormedEdges(fd, w, h, AddEdge(e, from, to))
  {
    var r := AddEdge(e, from, to);
    forall v, n | v in r && n in r[v] ensures Linked(fd, w, h, v, n) {
      if v == from {
        var old_ := if from in e then e[from] else [];
        assert n in old_ || n == to;
      }
    }
  }

  /** The centre block (cx, cy) holds `center`, of which `floors` is a prefix, next to the neighbour (nx, ny). */
  predicate Around(fd: FloorData, w: int, h: int, cx: int, cy: int, center: seq<FloorDesc>, nx: int, ny: int,
                   neighbor: seq<FloorDesc>)
  {
    SmallGrid(w, h) && ListAt(fd, w, h, cx, cy) == Some(center) && ListAt(fd, w, h, nx, ny) == Some(neighbor)
    && IsUnitOffset(Point(nx - cx, ny - cy))
  }

  lemma LinkFloorWellFormed(fd: FloorData, w: int, h: int, e: Edges, cx: int, cy: int, center: seq<FloorDesc>, i: nat,
                            nx: int, ny: int, neighbor: seq<FloorDesc>)
    requires WellFormedEdges(fd, w, h, e) && Around(fd, w, h, cx, cy, center, nx, ny, neighbor) && i < |center|
    ensures var to := DetermineDirection(cx, cy, nx, ny).value;
            WellFormedEdges(fd, w, h, LinkFloor(e, cx, cy, center[i], nx, ny, neighbor, to, GetInverseDirection(to)))
  {
    var to := DetermineDirection(cx, cy, nx, ny).value;
    var f := center[i];
    if !Blocked(f, to) && FirstLink(neighbor, f, GetInverseDirection(to)).Some? {
      var g := FirstLink(neighbor, f, GetInverseDirection(to)).value;
      var v, n := Vertex(cx, cy, f.z100i), Vertex(nx, ny, g.z100i);
      assert v.bX == cx && v.bY == cy && n.bX == nx && n.bY == ny;
      assert LinkTarget(center[i], neighbor, to, n.z100i);
      assert Linked(fd, w, h, v, n);
      AddEdgeWellFormed(fd, w, h, e, v, n);
    }
  }

  lemma {:induction false} CollectFloorsWellFormed(fd: FloorData, w: int, h: int, e: Edges, cx: int, cy: int,
                                                   center: seq<FloorDesc>, m: nat, nx: int, ny: int, neighbor: seq<FloorDesc>)
    requires WellFormedEdges(fd, w, h, e) && Around(fd, w, h, cx, cy, center, nx, ny, neighbor) && m <= |center|
    ensures var to := DetermineDirection(cx, cy, nx, ny).value;
            WellFormedEdges(fd, w, h, CollectFloors(e, cx, cy, center[..m], nx, ny, neighbor, to, GetInverseDirection(to)))
  {
    if m > 0 {
      var to := DetermineDirection(cx, cy, nx, ny).value;
      assert center[..m][..m - 1] == center[..m - 1];
      CollectFloorsWellFormed(fd, w, h, e, cx, cy, center, m - 1, nx, ny, neighbor);
      LinkFloorWellFormed(fd, w, h, CollectFloors(e, cx, cy, center[..m - 1], nx, ny, neighbor, to, GetInverseDirection(to)),
                          cx, cy, center, m - 1, nx, ny, neighbor);
    }
  }

  lemma {:induction false} CollectAroundWellFormed(fd: FloorData, w: int, h: int, e: Edges, x: int, y: int,
                                                   center: seq<FloorDesc>, k: nat)
    requires WellFormedEdges(fd, w, h, e) && SmallGrid(w, h) && ListAt(fd, w, h, x, y) == Some(center) && k <= 8
    ensures WellFormedEdges(fd, w, h, CollectAround(fd, w, h, e, x, y, center, k))
  {
    if k > 0 {
      CollectAroundWellFormed(fd, w, h, e, x, y, center, k - 1);
      var nx, ny := x + Offsets[k - 1].x, y + Offsets[k - 1].y;
      if ListAt(fd, w, h, nx, ny).Some? {
        CollectFloorsWellFormed(fd, w, h, CollectAround(fd, w, h, e, x, y, center, k - 1), x, y, center, |center|,
                                nx, ny, ListAt(fd, w, h, nx, ny).value);
        assert center[..|center|] == center;
      }
    }
  }

  lemma {:induction false} RowsWellFormed(fd: FloorData, w: nat, h: int, rows: nat)
    requires SmallGrid(w, h)
    ensures WellFormedEdges(fd, w, h, GatherRows(fd, w, h, rows))
    decreases rows, 0
  {
    if rows > 0 {
      CellsWellFormed(fd, w, h, rows - 1, w);
    }
  }

  lemma {:induction false} CellsWellFormed(fd: FloorData, w: nat, h: int, y: nat, n: nat)
    requires SmallGrid(w, h)
    ensures WellFormedEdges(fd, w, h, GatherCells(fd, w, h, y, n))
    decreases y, n + 1
  {
    if n == 0 {
      RowsWellFormed(fd, w, h, y);
    } else {
      CellsWellFormed(fd, w, h, y, n - 1);
      if ListAt(fd, w, h, n - 1, y).Some? {
        CollectAroundWellFormed(fd, w, h, GatherCells(fd, w, h, y, n - 1), n - 1, y, ListAt(fd, w, h, n - 1, y).value, 8);
      }
    }
  }

  /** GatherEdgeVertices is sound: every edge joins two floors the builder links, and no list is empty. */
  lemma GatheredWellFormed(fd: FloorData, w: nat, h: nat)
    requires SmallGrid(w, h)
    ensures WellFormedEdges(fd, w, h, Gathered(fd, w, h))
  {
    RowsWellFormed(fd, w, h, h);
  }

  /**
   * Every vertex an edge leads to has edges of its own: the neighbour floor is open back
   * toward the floor it was reached from, which is within its height step. So the
   * breadth-first search never looks up a missing key.
   */
  lemma GatheredClosed(fd: FloorData, w: nat, h: nat)
    requires SmallGrid(w, h)
    ensures Closed(Gathered(fd, w, h))
  {
    var e := Gathered(fd, w, h);
    GatheredWellFormed(fd, w, h);
    forall v, n | v in e && n in e[v] ensures n in e {
      LinkedBack(fd, w, h, v, n);
    }
  }

  /** The floor a centre floor links to is open back toward it and links to some centre floor. */
  lemma LinksBack(center: seq<FloorDesc>, neighbor: seq<FloorDesc>, i: nat, to: Flags) returns (j: nat)
    requires i < |center| && IsDirection(to) && !Blocked(center[i], to)
    requires FirstLink(neighbor, center[i], GetInverseDirection(to)).Some?
    ensures j < |neighbor| && neighbor[j] == FirstLink(neighbor, center[i], GetInverseDirection(to)).value
    ensures !Blocked(neighbor[j], GetInverseDirection(to))
    ensures FirstLink(center, neighbor[j], GetInverseDirection(GetInverseDirection(to))).Some?
  {
    var g := FirstLink(neighbor, center[i], GetInverseDirection(to)).value;
    j :| 0 <= j < |neighbor| && neighbor[j] == g;
    InverseIsInvolution(to);
    assert Links(g, center[i], GetInverseDirection(GetInverseDirection(to)));
  }

  lemma LinkedBack(fd: FloorData, w: nat, h: nat, v: EdgeVertex, n: EdgeVertex)
    requires SmallGrid(w, h) && Linked(fd, w, h, v, n)
    ensures n in Gathered(fd, w, h)
  {
    var center := ListAt(fd, w, h, v.bX, v.bY).value;
    var neighbor := ListAt(fd, w, h, n.bX, n.bY).value;
    var to := DetermineDirection(v.bX, v.bY, n.bX, n.bY).value;
    var i :| 0 <= i < |center| && center[i].z100i == v.z100i && LinkTarget(center[i], neighbor, to, n.z100i);
    var j := LinksBack(center, neighbor, i, to);
    DirectionBack(v.bX, v.bY, n.bX, n.bY);
    GatheredComplete(fd, w, h, n.bX, n.bY, j, v.bX, v.bY);
  }
}
