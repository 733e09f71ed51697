/// Why the rim validator of the builder passes after the flag repair: every direction the
/// repair opens on a vertex's floor leads to a neighbour in the vertex's own subgraph, so
/// no direction leading off a rim of the subgraph is ever opened.
module NavMeshRims {
  import opened Outcome
  import opened Bytes
  import opened NavMeshUtil
  import opened NavMeshFloors
  import opened NavMeshSubgraphs
  import opened NavMeshFlagFix
  import opened NavMeshBuilder

  /** The four rims a subgraph has on the block grid. */
  datatype Rim = LeftRim | RightRim | BottomRim | TopRim

  /** The three directions that leave a block through the rim's side. */
  function Mask(rim: Rim): Flags
  {
    match rim
    case LeftRim => LeftSide
    case RightRim => RightSide
    case BottomRim => BottomSide
    case TopRim => TopSide
  }

  /** v lies on this rim of sg. */
  predicate OnRim(sg: set<EdgeVertex>, v: EdgeVertex, rim: Rim)
  {
    match rim
    case LeftRim => Leftmost(sg, v)
    case RightRim => Rightmost(sg, v)
    case BottomRim => Bottommost(sg, v)
    case TopRim => Topmost(sg, v)
  }

  /** A step p crosses the rim's side outward. */
  predicate Outward(rim: Rim, p: Point)
  {
    match rim
    case LeftRim => p.x < 0
    case RightRim => p.x > 0
    case BottomRim => p.y < 0
    case TopRim => p.y > 0
  }

  /** A direction that does not step across a rim is not in the rim's mask. */
  lemma InwardNotInMask(rim: Rim, d: Flags)
    requires IsDirection(d) && !Outward(rim, OffsetFromDirectionFlag(d).value)
    ensures d & Mask(rim) == 0
  {
    RingIsDirections(d);
  }

  /** No vertex of sg lies across a rim sg has at v. */
  lemma NothingBeyondRim(sg: set<EdgeVertex>, v: EdgeVertex, rim: Rim, x: EdgeVertex)
    requires OnRim(sg, v, rim) && x in sg
    ensures !Outward(rim, Point(x.bX - v.bX, x.bY - v.bY))
  {
  }

  /** Two single-bit flags that share a bit are the same direction. */
  lemma SameDirection(a: Flags, b: Flags)
    requires IsDirection(a) && IsDirection(b) && a & b != 0
    ensures a == b
  {
    RingIsDirections(a);
    RingIsDirections(b);
  }

  /** A flags byte holding every direction that meets mask has all of mask's bits. */
  lemma CoveredMask(b: Flags, mask: Flags)
    requires forall k :: 0 <= k < 8 && Ring[k] & mask != 0 ==> b & Ring[k] != 0
    ensures !b & mask == 0
  {
    assert Ring[0] & mask != 0 ==> b & Ring[0] != 0;
    assert Ring[1] & mask != 0 ==> b & Ring[1] != 0;
    assert Ring[2] & mask != 0 ==> b & Ring[2] != 0;
    assert Ring[3] & mask != 0 ==> b & Ring[3] != 0;
    assert Ring[4] & mask != 0 ==> b & Ring[4] != 0;
    assert Ring[5] & mask != 0 ==> b & Ring[5] != 0;
    assert Ring[6] & mask != 0 ==> b & Ring[6] != 0;
    assert Ring[7] & mask != 0 ==> b & Ring[7] != 0;
  }

  /** s * w + w <= t * w when s < t. */
  lemma RowGap(w: nat, s: nat, t: nat)
    requires s < t
    ensures s * w + w <= t * w
  {
    var k := t - s - 1;
    assert t * w == (s + 1 + k) * w;
    assert (s + 1 + k) * w == s * w + w + k * w;
  }

  /** Within the grid's width, the row-major index determines the block. */
  lemma CellIndexInjective(w: nat, a: EdgeVertex, b: EdgeVertex)
    requires a.bX < w && b.bX < w && CellIndex(w, a) == CellIndex(w, b)
    ensures a.bX == b.bX && a.bY == b.bY
  {
    if a.bY < b.bY {
      RowGap(w, a.bY, b.bY);
    } else if b.bY < a.bY {
      RowGap(w, b.bY, a.bY);
    }
  }

  /** A request that changes a floor at v's height in v's block is a request for v. */
  lemma HitIsFor(base: FloorData, w: nat, q: Request, v: EdgeVertex, kk: nat)
    requires q.target.bX < w && v.bX < w
    requires Hits(base, w, q, CellIndex(w, v), kk) && base[CellIndex(w, v)].value[kk].z100i == v.z100i
    ensures q.target == v
  {
    CellIndexInjective(w, q.target, v);
  }

  /** Opening v toward a neighbour n of the same subgraph does not open v across a rim at v. */
  lemma TowardStaysIn(sg: set<EdgeVertex>, v: EdgeVertex, n: EdgeVertex, rim: Rim)
    requires OnRim(sg, v, rim) && n in sg
    ensures ToNeighbor(v, n).dir & Mask(rim) == 0
  {
    if DetermineDirection(v.bX, v.bY, n.bX, n.bY).Ok? {
      NothingBeyondRim(sg, v, rim, n);
      InwardNotInMask(rim, DirOf(v, n));
    }
  }

  /** Opening v back toward a vertex u of the same subgraph does not open v across a rim at v. */
  lemma BackStaysIn(sg: set<EdgeVertex>, u: EdgeVertex, v: EdgeVertex, rim: Rim)
    requires OnRim(sg, v, rim) && u in sg
    ensures FromNeighbor(u, v).dir & Mask(rim) == 0
  {
    if DetermineDirection(u.bX, u.bY, v.bX, v.bY).Ok? {
      InverseNegatesOffset(DirOf(u, v));
      NothingBeyondRim(sg, v, rim, u);
      InwardNotInMask(rim, GetInverseDirection(DirOf(u, v)));
    }
  }

  /**
   * No request of the repair opens a rim vertex toward its rim. The requests of an edge
   * u -> n open u toward n and n back toward u; with symmetric edges both ends lie in every
   * closed set holding either, so the direction opened leads inside the subgraph.
   */
  lemma NoneOpensOutward(edges: Edges, ss: seq<set<EdgeVertex>>, starts: seq<EdgeVertex>, qs: seq<Request>,
                         k: nat, v: EdgeVertex, rim: Rim)
    requires Partition(edges, ss, starts) && Symmetric(edges)
    requires forall q :: q in qs ==> IsRequest(edges, ss, q)
    requires k < |ss| && v in ss[k] && OnRim(ss[k], v, rim)
    ensures forall q :: q in qs && q.target == v ==> q.dir & Mask(rim) == 0
  {
    assert Component(edges, ss, starts, k);
    forall q | q in qs && q.target == v ensures q.dir & Mask(rim) == 0 {
      RequestInward(edges, ss, ss[k], v, rim, q);
    }
  }

  /** One request of the pass for a rim vertex v of a closed set sg opens v inward. */
  lemma RequestInward(edges: Edges, ss: seq<set<EdgeVertex>>, sg: set<EdgeVertex>, v: EdgeVertex, rim: Rim, q: Request)
    requires SetClosed(edges, sg) && Symmetric(edges) && v in sg && OnRim(sg, v, rim)
    requires IsRequest(edges, ss, q) && q.target == v
    ensures q.dir & Mask(rim) == 0
  {
    var i, u, n :| 0 <= i < |ss| && u in ss[i] && u in edges && n in edges[u]
                   && (q == ToNeighbor(u, n) || q == FromNeighbor(u, n));
    if q == ToNeighbor(u, n) {
      TowardStaysIn(sg, v, n, rim);
    } else {
      assert u in edges[v];
      BackStaysIn(sg, u, v, rim);
    }
  }

  /** The repair keeps the blocks and the number of floors in each. */
  lemma RepairedShape(base: FloorData, w: nat, qs: seq<Request>, i: nat)
    requires i < |base| && base[i].Some?
    ensures var fd := ApplyAll(Blank(base), w, qs);
            i < |fd| && fd[i].Some? && |fd[i].value| == |base[i].value|
  {
    SameShapeTrans(ApplyAll(Blank(base), w, qs), Blank(base), base);
  }

  /** A direction no request for v opens stays blocked on v's floors at v's height. */
  lemma DirectionStaysShut(base: FloorData, w: nat, qs: seq<Request>, v: EdgeVertex, mask: Flags, kk: nat, d: Flags)
    requires (forall q :: q in qs ==> q.target.bX < w) && v.bX < w
    requires forall q :: q in qs && q.target == v ==> q.dir & mask == 0
    requires CellIndex(w, v) < |base| && base[CellIndex(w, v)].Some?
    requires kk < |base[CellIndex(w, v)].value| && base[CellIndex(w, v)].value[kk].z100i == v.z100i
    requires IsDirection(d) && d & mask != 0
    ensures var fd := ApplyAll(Blank(base), w, qs);
            fd[CellIndex(w, v)].Some? && kk < |fd[CellIndex(w, v)].value|
            && Bits(fd[CellIndex(w, v)].value[kk].directionFlags) & d != 0
  {
    FixedFlags(base, w, qs, CellIndex(w, v), kk, d);
    forall q | q in qs && Hits(base, w, q, CellIndex(w, v), kk) ensures q.dir & d == 0 {
      HitIsFor(base, w, q, v, kk);
      RingIsDirections(d);
    }
  }

  /** One floor of v's block at v's height keeps every direction of mask no request for v opens. */
  lemma FloorStaysShut(base: FloorData, w: nat, qs: seq<Request>, v: EdgeVertex, mask: Flags, kk: nat)
    requires (forall q :: q in qs ==> q.target.bX < w) && v.bX < w
    requires forall q :: q in qs && q.target == v ==> q.dir & mask == 0
    requires CellIndex(w, v) < |base| && base[CellIndex(w, v)].Some?
    requires kk < |base[CellIndex(w, v)].value| && base[CellIndex(w, v)].value[kk].z100i == v.z100i
    ensures var fd := ApplyAll(Blank(base), w, qs);
            fd[CellIndex(w, v)].Some? && kk < |fd[CellIndex(w, v)].value|
            && !Bits(fd[CellIndex(w, v)].value[kk].directionFlags) & mask == 0
  {
    RepairedShape(base, w, qs, CellIndex(w, v));
    var b := Bits(ApplyAll(Blank(base), w, qs)[CellIndex(w, v)].value[kk].directionFlags);
    forall j | 0 <= j < 8 && Ring[j] & mask != 0 ensures b & Ring[j] != 0 {
      RingIsDirections(Ring[j]);
      DirectionStaysShut(base, w, qs, v, mask, kk, Ring[j]);
    }
    CoveredMask(b, mask);
  }

  /** The floors of v's block at v's height keep every direction of mask no request for v opens. */
  lemma SideStaysShut(base: FloorData, w: nat, qs: seq<Request>, v: EdgeVertex, mask: Flags)
    requires (forall q :: q in qs ==> q.target.bX < w) && v.bX < w
    requires forall q :: q in qs && q.target == v ==> q.dir & mask == 0
    requires Findable(base, w, v)
    ensures var fd := ApplyAll(Blank(base), w, qs);
            fd[CellIndex(w, v)].Some? && SideBlocked(fd[CellIndex(w, v)].value, v.z100i, mask)
  {
    var i := CellIndex(w, v);
    RepairedShape(base, w, qs, i);
    var fd := ApplyAll(Blank(base), w, qs);
    SameShapeTrans(fd, Blank(base), base);
    forall kk | 0 <= kk < |fd[i].value| ensures Shut(fd[i].value[kk], v.z100i, mask) {
      assert fd[i].value[kk].z100i == base[i].value[kk].z100i;
      if base[i].value[kk].z100i == v.z100i {
        FloorStaysShut(base, w, qs, v, mask, kk);
      }
    }
  }

  /** Every request of the pass is for a vertex of the dictionary, so inside the grid's width. */
  lemma TargetsInWidth(w: nat, edges: Edges, ss: seq<set<EdgeVertex>>, starts: seq<EdgeVertex>, qs: seq<Request>)
    requires Partition(edges, ss, starts)
    requires forall q :: q in qs ==> IsRequest(edges, ss, q)
    requires forall u :: u in edges ==> u.bX < w
    ensures forall q :: q in qs ==> q.target.bX < w
  {
    PartitionClosed(edges, ss, starts);
    forall q | q in qs ensures q.target.bX < w {
      var i, u, n :| 0 <= i < |ss| && u in ss[i] && u in edges && n in edges[u]
                     && (q == ToNeighbor(u, n) || q == FromNeighbor(u, n));
    }
  }

  /** One rim of v's subgraph at a time: v's floors at its height are blocked toward it. */
  lemma RimShut(base: FloorData, w: nat, edges: Edges, ss: seq<set<EdgeVertex>>,
                starts: seq<EdgeVertex>, qs: seq<Request>, k: nat, v: EdgeVertex)
    requires Partition(edges, ss, starts) && Symmetric(edges)
    requires forall q :: q in qs ==> IsRequest(edges, ss, q) && q.target.bX < w
    requires k < |ss| && v in ss[k] && v.bX < w && Findable(base, w, v)
    ensures RimBlocked(ApplyAll(Blank(base), w, qs), w, ss[k], v)
  {
    RepairedShape(base, w, qs, CellIndex(w, v));
    if Leftmost(ss[k], v) {
      NoneOpensOutward(edges, ss, starts, qs, k, v, LeftRim);
      SideStaysShut(base, w, qs, v, LeftSide);
    }
    if Rightmost(ss[k], v) {
      NoneOpensOutward(edges, ss, starts, qs, k, v, RightRim);
      SideStaysShut(base, w, qs, v, RightSide);
    }
    if Bottommost(ss[k], v) {
      NoneOpensOutward(edges, ss, starts, qs, k, v, BottomRim);
      SideStaysShut(base, w, qs, v, BottomSide);
    }
    if Topmost(ss[k], v) {
      NoneOpensOutward(edges, ss, starts, qs, k, v, TopRim);
      SideStaysShut(base, w, qs, v, TopSide);
    }
  }

  /**
   * FixDirectionFlagsToMatchSubgraphs followed by ValidateEdgesAtBoundsAreBlocked: when the
   * edges are symmetric, every vertex's block holds floors, and the grid is as wide as the
   * vertices need, the floors the repair leaves pass the rim test of every subgraph.
   */
  lemma FixedRimsBlocked(base: FloorData, w: nat, edges: Edges, ss: seq<set<EdgeVertex>>,
                         starts: seq<EdgeVertex>, qs: seq<Request>)
    requires Partition(edges, ss, starts) && Symmetric(edges)
    requires forall q :: q in qs ==> IsRequest(edges, ss, q)
    requires forall u :: u in edges ==> u.bX < w && Findable(base, w, u)
    ensures forall k, v :: 0 <= k < |ss| && v in ss[k] ==> RimBlocked(ApplyAll(Blank(base), w, qs), w, ss[k], v)
  {
    PartitionClosed(edges, ss, starts);
    TargetsInWidth(w, edges, ss, starts, qs);
    forall k, v | 0 <= k < |ss| && v in ss[k] ensures RimBlocked(ApplyAll(Blank(base), w, qs), w, ss[k], v) {
      RimShut(base, w, edges, ss, starts, qs, k, v);
    }
  }
}
