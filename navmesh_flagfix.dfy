/// The flag repair pass of the builder (FixDirectionFlagsToMatchSubgraphs in
/// NavMeshBuilder.cs), on values: the requests it carries out and the floor data they
/// leave behind. The pass first blocks every direction of every floor, then reopens, for
/// each edge of each kept subgraph, the direction on both of its ends.
module NavMeshFlagFix {
  import opened Outcome
  import opened Bytes
  import opened NavMeshUtil
  import opened NavMeshFloors

  /** Open direction `dir` on the floor of the target's block that has the target's height. */
  datatype Request = Request(target: EdgeVertex, dir: Flags)

  /** The row-major index the builder computes for a vertex, `v.BY * m_blockWidth + v.BX`. */
  function CellIndex(w: nat, v: EdgeVertex): nat
  {
    v.bY * w + v.bX
  }

  /** The index of the first floor at height z, or |list| when there is none. */
  function FirstAt(list: seq<FloorDesc>, z: int): (j: nat)
    ensures j <= |list|
    ensures j < |list| ==> list[j].z100i == z
    ensures forall k :: 0 <= k < j ==> list[k].z100i != z
  {
    if list == [] then 0
    else if list[0].z100i == z then 0
    else
      var j := 1 + FirstAt(list[1..], z);
      assert forall k :: 1 <= k < |list| ==> list[k] == list[1..][k - 1];
      j
  }

  /** The vertex's block is in the data, is not null and has a floor at the vertex's height. */
  predicate Findable(fd: FloorData, w: nat, v: EdgeVertex)
  {
    var i := CellIndex(w, v);
    i < |fd| && fd[i].Some? && FirstAt(fd[i].value, v.z100i) < |fd[i].value|
  }

  /** Floor j of block i is the one request q changes. */
  predicate Hits(fd: FloorData, w: nat, q: Request, i: int, j: int)
  {
    i == CellIndex(w, q.target) && Findable(fd, w, q.target) && j == FirstAt(fd[i].value, q.target.z100i)
  }

  /** `(byte)(flags & ~dir)`: the flags with the bits of dir cleared. */
  function ClearBits(flags: byte, dir: Flags): (r: byte)
    ensures Bits(r) == Bits(flags) & !dir
  {
    var b := Bits(flags) & !dir;
    ValueBits(b);
    b as int
  }

  /** One request carried out; a request whose floor cannot be found changes nothing. */
  function Unblock(fd: FloorData, w: nat, q: Request): (r: FloorData)
    ensures SameShape(r, fd)
    ensures !Findable(fd, w, q.target) ==> r == fd
  {
    if !Findable(fd, w, q.target) then fd
    else
      var i := CellIndex(w, q.target);
      var list := fd[i].value;
      var j := FirstAt(list, q.target.z100i);
      fd[i := Some(list[j := FloorDesc(q.target.z100i, ClearBits(list[j].directionFlags, q.dir))])]
  }

  /** The requests carried out in the order given. */
  function ApplyAll(fd: FloorData, w: nat, qs: seq<Request>): (r: FloorData)
    ensures SameShape(r, fd)
  {
    if qs == [] then fd
    else
      var before := ApplyAll(fd, w, qs[..|qs| - 1]);
      var r := Unblock(before, w, qs[|qs| - 1]);
      SameShapeTrans(r, before, fd);
      r
  }

  lemma ApplyAllSnoc(fd: FloorData, w: nat, qs: seq<Request>, q: Request)
    ensures ApplyAll(fd, w, qs + [q]) == Unblock(ApplyAll(fd, w, qs), w, q)
  {
    assert (qs + [q])[..|qs|] == qs;
  }

  function BlankList(list: seq<FloorDesc>): (r: seq<FloorDesc>)
  {
    seq(|list|, k requires 0 <= k < |list| => FloorDesc(list[k].z100i, 0xFF))
  }

  /** The first loop of the pass: every floor of every non-null block gets flags 0xFF. */
  function Blank(fd: FloorData): (r: FloorData)
    ensures SameShape(r, fd)
    ensures forall i, k :: 0 <= i < |fd| && fd[i].Some? && 0 <= k < |fd[i].value| ==> r[i].value[k].directionFlags == 0xFF
  {
    seq(|fd|, i requires 0 <= i < |fd| => if fd[i].Some? then Some(BlankList(fd[i].value)) else None)
  }

  /** The same blocks are null, and every list has the same heights in the same order. */
  predicate SameShape(a: FloorData, b: FloorData)
  {
    && |a| == |b|
    && forall i :: 0 <= i < |a| ==>
         && a[i].Some? == b[i].Some?
         && (a[i].Some? ==>
               |a[i].value| == |b[i].value| && forall k :: 0 <= k < |a[i].value| ==> a[i].value[k].z100i == b[i].value[k].z100i)
  }

  lemma FirstAtShape(a: seq<FloorDesc>, b: seq<FloorDesc>, z: int)
    requires |a| == |b| && forall k :: 0 <= k < |a| ==> a[k].z100i == b[k].z100i
    ensures FirstAt(a, z) == FirstAt(b, z)
  {
  }

  /** Findable and Hits only look at the shape of the data. */
  lemma ShapeHits(a: FloorData, b: FloorData, w: nat, q: Request)
    requires SameShape(a, b)
    ensures Findable(a, w, q.target) == Findable(b, w, q.target)
    ensures Findable(a, w, q.target) ==>
              FirstAt(a[CellIndex(w, q.target)].value, q.target.z100i) == FirstAt(b[CellIndex(w, q.target)].value, q.target.z100i)
  {
    var i := CellIndex(w, q.target);
    if i < |a| && a[i].Some? {
      FirstAtShape(a[i].value, b[i].value, q.target.z100i);
    }
  }

  lemma SameShapeTrans(a: FloorData, b: FloorData, c: FloorData)
    requires SameShape(a, b) && SameShape(b, c)
    ensures SameShape(a, c)
  {
  }

  /**
   * A direction of a floor ends up blocked exactly when it started blocked and no request
   * for that floor opens it.
   */
  lemma {:induction false} ApplyAllBit(fd: FloorData, w: nat, qs: seq<Request>, i: nat, j: nat, d: Flags)
    requires IsDirection(d) && i < |fd| && fd[i].Some? && j < |fd[i].value|
    ensures ApplyAll(fd, w, qs)[i].Some? && j < |ApplyAll(fd, w, qs)[i].value|
    ensures (Bits(ApplyAll(fd, w, qs)[i].value[j].directionFlags) & d != 0)
        <==> (Bits(fd[i].value[j].directionFlags) & d != 0 && forall q :: q in qs && Hits(fd, w, q, i, j) ==> q.dir & d == 0)
  {
    if qs != [] {
      var prev := qs[..|qs| - 1];
      var q := qs[|qs| - 1];
      ApplyAllBit(fd, w, prev, i, j, d);
      var before := ApplyAll(fd, w, prev);
      UnblockBit(before, w, q, i, j, d);
      ShapeHits(before, fd, w, q);
      assert Hits(before, w, q, i, j) == Hits(fd, w, q, i, j);
      assert forall p :: p in qs <==> p in prev || p == q;
    }
  }

  lemma UnblockBit(fd: FloorData, w: nat, q: Request, i: nat, j: nat, d: Flags)
    requires IsDirection(d) && i < |fd| && fd[i].Some? && j < |fd[i].value|
    ensures (Bits(Unblock(fd, w, q)[i].value[j].directionFlags) & d != 0)
        <==> (Bits(fd[i].value[j].directionFlags) & d != 0 && !(Hits(fd, w, q, i, j) && q.dir & d != 0))
  {
    if Hits(fd, w, q, i, j) {
      var f := fd[i].value[j];
      assert Unblock(fd, w, q)[i].value[j] == FloorDesc(q.target.z100i, ClearBits(f.directionFlags, q.dir));
      SingleBitClear(Bits(f.directionFlags), q.dir, d);
    } else if Findable(fd, w, q.target) {
      var t := CellIndex(w, q.target);
      assert Unblock(fd, w, q)[i] == fd[i] || (t == i && Unblock(fd, w, q)[i].value[j] == fd[i].value[j]);
    }
  }

  lemma SingleBitClear(b: Flags, dir: Flags, d: Flags)
    requires IsDirection(d)
    ensures (b & !dir) & d != 0 <==> b & d != 0 && dir & d == 0
  {
    RingIsDirections(d);
  }

  /** After the pass, a direction of a floor is open exactly when some request opened it. */
  lemma FixedFlags(base: FloorData, w: nat, qs: seq<Request>, i: nat, j: nat, d: Flags)
    requires IsDirection(d) && i < |base| && base[i].Some? && j < |base[i].value|
    ensures var fd := ApplyAll(Blank(base), w, qs);
            fd[i].Some? && j < |fd[i].value| && fd[i].value[j].z100i == base[i].value[j].z100i
            && ((Bits(fd[i].value[j].directionFlags) & d == 0) <==> exists q :: q in qs && Hits(base, w, q, i, j) && q.dir & d != 0)
  {
    ApplyAllBit(Blank(base), w, qs, i, j, d);
    forall q ensures Hits(Blank(base), w, q, i, j) == Hits(base, w, q, i, j) {
      ShapeHits(Blank(base), base, w, q);
    }
  }

  /** A floor no request is for keeps every direction blocked. */
  lemma UntouchedStaysBlocked(base: FloorData, w: nat, qs: seq<Request>, i: nat, j: nat)
    requires i < |base| && base[i].Some? && j < |base[i].value|
    requires forall q :: q in qs ==> !Hits(base, w, q, i, j)
    ensures ApplyAll(Blank(base), w, qs)[i].value[j].directionFlags == 0xFF
  {
    var fd := ApplyAll(Blank(base), w, qs);
    forall k | 0 <= k < 8 ensures Bits(fd[i].value[j].directionFlags) & Ring[k] != 0 {
      RingIsDirections(Ring[k]);
      FixedFlags(base, w, qs, i, j, Ring[k]);
    }
    var b := Bits(fd[i].value[j].directionFlags);
    assert b & Ring[0] != 0 && b & Ring[1] != 0 && b & Ring[2] != 0 && b & Ring[3] != 0;
    assert b & Ring[4] != 0 && b & Ring[5] != 0 && b & Ring[6] != 0 && b & Ring[7] != 0;
    assert b == 0xFF;
  }

  // --- The requests of the pass ---

  /** DetermineDirection(v.BX, v.BY, n.BX, n.BY); the pass throws before using a failed one. */
  function DirOf(v: EdgeVertex, n: EdgeVertex): Flags
  {
    match DetermineDirection(v.bX, v.bY, n.bX, n.bY)
    case Ok(d) => d
    case Err(_) => 0
  }

  /** "unblock me to neighbor". */
  function ToNeighbor(v: EdgeVertex, n: EdgeVertex): Request
  {
    Request(v, DirOf(v, n))
  }

  /** "unblock neighbor to me". */
  function FromNeighbor(v: EdgeVertex, n: EdgeVertex): Request
  {
    Request(n, GetInverseDirection(DirOf(v, n)))
  }

  /** Both requests of edge v to n can be carried out. */
  predicate EdgeFixable(fd: FloorData, w: nat, v: EdgeVertex, n: EdgeVertex)
  {
    IsUnitOffset(Point(n.bX - v.bX, n.bY - v.bY)) && Findable(fd, w, v) && Findable(fd, w, n)
  }

  /** Vertex v has an entry and every one of its edges can be carried out. */
  predicate VertexFixable(fd: FloorData, w: nat, edges: Edges, v: EdgeVertex)
  {
    v in edges && forall n :: n in edges[v] ==> EdgeFixable(fd, w, v, n)
  }

  /** The pass runs to the end without throwing. */
  predicate AllFixable(fd: FloorData, w: nat, edges: Edges, ss: seq<set<EdgeVertex>>)
  {
    forall i, v :: 0 <= i < |ss| && v in ss[i] ==> VertexFixable(fd, w, edges, v)
  }

  /** The requests of the pass: both ends of every edge leaving a vertex of a kept subgraph. */
  ghost predicate IsRequest(edges: Edges, ss: seq<set<EdgeVertex>>, q: Request)
  {
    exists i, v, n :: 0 <= i < |ss| && v in ss[i] && v in edges && n in edges[v]
                      && (q == ToNeighbor(v, n) || q == FromNeighbor(v, n))
  }

  /**
   * After a pass that did not throw, the two ends of every edge of a kept subgraph are
   * open toward each other: the first floor of v at v's height toward n, and the first
   * floor of n at n's height back toward v.
   */
  lemma FixedEdgeOpen(base: FloorData, w: nat, edges: Edges, ss: seq<set<EdgeVertex>>, qs: seq<Request>,
                      k: nat, v: EdgeVertex, n: EdgeVertex)
    requires AllFixable(base, w, edges, ss) && forall q :: q in qs <==> IsRequest(edges, ss, q)
    requires k < |ss| && v in ss[k] && v in edges && n in edges[v]
    ensures EdgeFixable(base, w, v, n)
    ensures var fd := ApplyAll(Blank(base), w, qs);
            var iv, jv := CellIndex(w, v), FirstAt(base[CellIndex(w, v)].value, v.z100i);
            var iN, jN := CellIndex(w, n), FirstAt(base[CellIndex(w, n)].value, n.z100i);
            && !Blocked(fd[iv].value[jv], DetermineDirection(v.bX, v.bY, n.bX, n.bY).value)
            && !Blocked(fd[iN].value[jN], GetInverseDirection(DetermineDirection(v.bX, v.bY, n.bX, n.bY).value))
  {
    assert VertexFixable(base, w, edges, v);
    var d := DirOf(v, n);
    InverseNegatesOffset(d);
    assert IsRequest(edges, ss, ToNeighbor(v, n));
    assert IsRequest(edges, ss, FromNeighbor(v, n));
    FixedFlags(base, w, qs, CellIndex(w, v), FirstAt(base[CellIndex(w, v)].value, v.z100i), d);
    FixedFlags(base, w, qs, CellIndex(w, n), FirstAt(base[CellIndex(w, n)].value, n.z100i), GetInverseDirection(d));
  }

  /**
   * Every vertex of a kept subgraph can still be found after a pass that did not throw,
   * as long as every vertex has an edge: ValidateAllSubgraphVerticesExistInFloorData
   * cannot throw.
   */
  lemma FixedVerticesFindable(base: FloorData, w: nat, edges: Edges, ss: seq<set<EdgeVertex>>, qs: seq<Request>)
    requires AllFixable(base, w, edges, ss) && NonEmptyLists(edges)
    ensures forall i, v :: 0 <= i < |ss| && v in ss[i] ==> Findable(ApplyAll(Blank(base), w, qs), w, v)
  {
    SameShapeTrans(ApplyAll(Blank(base), w, qs), Blank(base), base);
    forall i, v | 0 <= i < |ss| && v in ss[i] ensures Findable(ApplyAll(Blank(base), w, qs), w, v) {
      assert VertexFixable(base, w, edges, v);
      assert EdgeFixable(base, w, v, edges[v][0]);
      ShapeHits(ApplyAll(Blank(base), w, qs), base, w, Request(v, 0));
    }
  }

  /**
   * Floors of blocks no kept subgraph reaches stay blocked in every direction: when the
   * subgraphs are closed, every request is for a vertex of a kept subgraph.
   */
  lemma OutsideStaysBlocked(base: FloorData, w: nat, edges: Edges, ss: seq<set<EdgeVertex>>, qs: seq<Request>,
                            c: set<EdgeVertex>, i: nat, j: nat)
    requires forall q :: q in qs ==> IsRequest(edges, ss, q)
    requires forall k, v :: 0 <= k < |ss| && v in ss[k] && v in edges ==> v in c && forall n :: n in edges[v] ==> n in c
    requires i < |base| && base[i].Some? && j < |base[i].value|
    requires forall t :: t in c ==> !(CellIndex(w, t) == i && Findable(base, w, t) && FirstAt(base[i].value, t.z100i) == j)
    ensures ApplyAll(Blank(base), w, qs)[i].value[j].directionFlags == 0xFF
  {
    forall q | q in qs ensures !Hits(base, w, q, i, j) {
      assert IsRequest(edges, ss, q);
      var k, v, n :| 0 <= k < |ss| && v in ss[k] && v in edges && n in edges[v]
                     && (q == ToNeighbor(v, n) || q == FromNeighbor(v, n));
      assert q.target in c;
    }
    UntouchedStaysBlocked(base, w, qs, i, j);
  }

  // --- Facts the imperative pass relies on ---

  /** The floor a search that stops at its first match finds. */
  lemma FirstAtIndex(list: seq<FloorDesc>, z: int, j: nat)
    requires j < |list| && list[j].z100i == z && forall k :: 0 <= k < j ==> list[k].z100i != z
    ensures FirstAt(list, z) == j
  {
  }

  /** Whether an edge can be carried out depends only on the shape of the data. */
  lemma EdgeFixableShape(a: FloorData, b: FloorData, w: nat, v: EdgeVertex, n: EdgeVertex)
    requires SameShape(a, b)
    ensures EdgeFixable(a, w, v, n) == EdgeFixable(b, w, v, n)
  {
    ShapeHits(a, b, w, Request(v, 0));
    ShapeHits(a, b, w, Request(n, 0));
  }

  lemma VertexFixableShape(a: FloorData, b: FloorData, w: nat, edges: Edges, v: EdgeVertex)
    requires SameShape(a, b)
    ensures VertexFixable(a, w, edges, v) == VertexFixable(b, w, edges, v)
  {
    if v in edges {
      forall n | n in edges[v] ensures EdgeFixable(a, w, v, n) == EdgeFixable(b, w, v, n) {
        EdgeFixableShape(a, b, w, v, n);
      }
    }
  }

  /** The two requests of one edge leaving v. */
  ghost predicate RequestAt(edges: Edges, v: EdgeVertex, q: Request)
  {
    v in edges && exists n :: n in edges[v] && (q == ToNeighbor(v, n) || q == FromNeighbor(v, n))
  }

  /** The requests of one more subgraph. */
  lemma IsRequestSnoc(edges: Edges, ss: seq<set<EdgeVertex>>, sg: set<EdgeVertex>, q: Request)
    ensures IsRequest(edges, ss + [sg], q) <==> IsRequest(edges, ss, q) || exists v :: v in sg && RequestAt(edges, v, q)
  {
    var ss' := ss + [sg];
    if IsRequest(edges, ss', q) {
      var i, v, n :| 0 <= i < |ss'| && v in ss'[i] && v in edges && n in edges[v]
                     && (q == ToNeighbor(v, n) || q == FromNeighbor(v, n));
      if i == |ss| {
        assert RequestAt(edges, v, q);
      } else {
        assert ss'[i] == ss[i];
      }
    }
    if IsRequest(edges, ss, q) {
      var i, v, n :| 0 <= i < |ss| && v in ss[i] && v in edges && n in edges[v]
                     && (q == ToNeighbor(v, n) || q == FromNeighbor(v, n));
      assert ss'[i] == ss[i];
    }
    if exists v :: v in sg && RequestAt(edges, v, q) {
      var v :| v in sg && RequestAt(edges, v, q);
      var n :| n in edges[v] && (q == ToNeighbor(v, n) || q == FromNeighbor(v, n));
      assert ss'[|ss|] == sg;
    }
  }

  /** The pass runs through one more subgraph. */
  lemma AllFixableSnoc(fd: FloorData, w: nat, edges: Edges, ss: seq<set<EdgeVertex>>, sg: set<EdgeVertex>)
    ensures AllFixable(fd, w, edges, ss + [sg]) <==>
              AllFixable(fd, w, edges, ss) && forall v :: v in sg ==> VertexFixable(fd, w, edges, v)
  {
    var ss' := ss + [sg];
    assert ss'[|ss|] == sg;
    assert forall i :: 0 <= i < |ss| ==> ss'[i] == ss[i];
  }

  /** The requests of the edges from v to each of ns, in order, after those already made. */
  function EdgeRequests(before: seq<Request>, v: EdgeVertex, ns: seq<EdgeVertex>): (r: seq<Request>)
    ensures |r| == |before| + 2 * |ns|
  {
    if ns == [] then before
    else EdgeRequests(before, v, ns[..|ns| - 1]) + [ToNeighbor(v, ns[|ns| - 1])] + [FromNeighbor(v, ns[|ns| - 1])]
  }

  lemma {:induction false} EdgeRequestsMembers(before: seq<Request>, v: EdgeVertex, ns: seq<EdgeVertex>, q: Request)
    ensures q in EdgeRequests(before, v, ns) <==>
              q in before || exists n :: n in ns && (q == ToNeighbor(v, n) || q == FromNeighbor(v, n))
    decreases |ns|
  {
    if ns != [] {
      var init, last := ns[..|ns| - 1], ns[|ns| - 1];
      EdgeRequestsMembers(before, v, init, q);
      assert ns == init + [last];
      if exists n :: n in ns && (q == ToNeighbor(v, n) || q == FromNeighbor(v, n)) {
        var n :| n in ns && (q == ToNeighbor(v, n) || q == FromNeighbor(v, n));
        if n != last {
          assert n in init;
        }
      }
    }
  }

  /** The prefix of one more element. */
  lemma PrefixStep(ns: seq<EdgeVertex>, i: nat)
    requires i < |ns|
    ensures ns[..i + 1][..i] == ns[..i] && ns[..i + 1][i] == ns[i]
  {
  }

  /** Every edge from v to one of ns can be carried out. */
  predicate EdgesFixable(fd: FloorData, w: nat, v: EdgeVertex, ns: seq<EdgeVertex>)
  {
    ns == [] || (EdgesFixable(fd, w, v, ns[..|ns| - 1]) && EdgeFixable(fd, w, v, ns[|ns| - 1]))
  }

  lemma {:induction false} EdgesFixableAll(fd: FloorData, w: nat, v: EdgeVertex, ns: seq<EdgeVertex>)
    ensures EdgesFixable(fd, w, v, ns) <==> forall n :: n in ns ==> EdgeFixable(fd, w, v, n)
    decreases |ns|
  {
    if ns != [] {
      var init := ns[..|ns| - 1];
      EdgesFixableAll(fd, w, v, init);
      assert ns == init + [ns[|ns| - 1]];
    }
  }

  /** One more edge carried out: the prefix of one more neighbour is fixable and has its requests. */
  lemma EdgesStep(fd: FloorData, w: nat, v: EdgeVertex, ns: seq<EdgeVertex>, i: nat,
                  before: seq<Request>, done: seq<Request>)
    requires i < |ns| && EdgesFixable(fd, w, v, ns[..i]) && EdgeFixable(fd, w, v, ns[i])
    requires done == EdgeRequests(before, v, ns[..i])
    ensures EdgesFixable(fd, w, v, ns[..i + 1])
    ensures done + [ToNeighbor(v, ns[i])] + [FromNeighbor(v, ns[i])] == EdgeRequests(before, v, ns[..i + 1])
  {
    PrefixStep(ns, i);
  }

  /** One edge that cannot be carried out makes the whole neighbour list unfixable. */
  lemma EdgeUnfixable(fd: FloorData, w: nat, v: EdgeVertex, ns: seq<EdgeVertex>, i: nat)
    requires i < |ns| && !EdgeFixable(fd, w, v, ns[i])
    ensures !EdgesFixable(fd, w, v, ns)
  {
    EdgesFixableAll(fd, w, v, ns);
    assert ns[i] in ns;
  }
}
