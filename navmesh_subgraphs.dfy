/// The partition of the edge dictionary into connected subgraphs (ComputeSubgraphs in
/// NavMeshBuilder.cs) and the size filter the builder applies to the result.
module NavMeshSubgraphs {
  import opened Outcome
  import opened NavMeshFloors

  /** Every vertex of c has an entry in the dictionary, and every edge from c stays in c. */
  predicate SetClosed(edges: Edges, c: set<EdgeVertex>)
  {
    forall v :: v in c ==> v in edges && forall n :: n in edges[v] ==> n in c
  }

  /** sg lies inside every closed set holding start: it is what start reaches and no more. */
  ghost predicate Generated(edges: Edges, start: EdgeVertex, sg: set<EdgeVertex>)
  {
    forall c :: SetClosed(edges, c) && start in c ==> sg <= c
  }

  /** Every edge has its reverse. */
  predicate Symmetric(edges: Edges)
  {
    forall v, n :: v in edges && n in edges[v] ==> n in edges && v in edges[n]
  }

  /** The vertices of all subgraphs. */
  function Union(ss: seq<set<EdgeVertex>>): (u: set<EdgeVertex>)
    ensures forall v :: v in u <==> exists i :: 0 <= i < |ss| && v in ss[i]
  {
    if ss == [] then {}
    else
      var u := Union(ss[..|ss| - 1]) + ss[|ss| - 1];
      assert forall i :: 0 <= i < |ss| - 1 ==> ss[..|ss| - 1][i] == ss[i];
      u
  }

  predicate Disjoint(ss: seq<set<EdgeVertex>>)
  {
    forall i, j :: 0 <= i < j < |ss| ==> ss[i] !! ss[j]
  }

  /** Subgraph i is the closed set its start vertex generates, and that vertex is in no earlier subgraph. */
  ghost predicate Component(edges: Edges, ss: seq<set<EdgeVertex>>, starts: seq<EdgeVertex>, i: int)
    requires 0 <= i < |ss| && |starts| == |ss|
  {
    && starts[i] in ss[i] && SetClosed(edges, ss[i]) && Generated(edges, starts[i], ss[i])
    && forall j :: 0 <= j < i ==> starts[i] !in ss[j]
  }

  /** The subgraphs cover the keys exactly, each generated by its start vertex. */
  ghost predicate Partition(edges: Edges, ss: seq<set<EdgeVertex>>, starts: seq<EdgeVertex>)
  {
    && |starts| == |ss| && Union(ss) == edges.Keys
    && forall i :: 0 <= i < |ss| ==> Component(edges, ss, starts, i)
  }

  /**
   * The breadth-first walk from one start vertex: a queue of vertices to visit and the set
   * visited so far. A vertex reached without an entry of its own makes the dictionary
   * lookup throw. `visited` is the union of the subgraphs found before.
   */
  method Explore(edges: Edges, start: EdgeVertex, ghost visited: set<EdgeVertex>) returns (r: Result<set<EdgeVertex>>)
    requires start in edges
    ensures r.Err? ==> r.error == KeyNotFound && !Closed(edges)
    ensures r.Ok? ==> start in r.value && SetClosed(edges, r.value) && Generated(edges, start, r.value)
    ensures r.Ok? && Symmetric(edges) && SetClosed(edges, visited) && start !in visited ==> r.value !! visited
  {
    var queue := [start];
    var current: set<EdgeVertex> := {};
    while queue != []
      invariant forall u :: u in current ==> u in edges && forall n :: n in edges[u] ==> n in current || n in queue
      invariant start in current || start in queue
      invariant forall c :: SetClosed(edges, c) && start in c ==> current <= c && forall q :: q in queue ==> q in c
      invariant Closed(edges) ==> forall q :: q in queue ==> q in edges
      invariant Symmetric(edges) && SetClosed(edges, visited) && start !in visited ==>
                  current !! visited && forall q :: q in queue ==> q !in visited
      decreases edges.Keys - current, |queue|
    {
      var cur := queue[0];
      ghost var before := queue;
      queue := queue[1..];
      assert forall q :: q in queue ==> q in before;
      if cur in current {
        continue;
      }
      if cur !in edges {
        assert cur in before;
        return Err(KeyNotFound);
      }
      current := current + {cur};
      queue := queue + edges[cur];
    }
    r := Ok(current);
  }

  /**
   * ComputeSubgraphs: every key not yet visited starts a new walk; the keys are taken in
   * whatever order the dictionary gives them. The walk throws exactly when some edge
   * leads to a vertex without an entry. Subgraphs are pairwise disjoint when every edge
   * has its reverse; otherwise a later walk can run into an earlier subgraph.
   */
  method ComputeSubgraphs(edges: Edges) returns (r: Result<seq<set<EdgeVertex>>>, ghost starts: seq<EdgeVertex>)
    ensures r.Ok? <==> Closed(edges)
    ensures r.Err? ==> r.error == KeyNotFound
    ensures r.Ok? ==> Partition(edges, r.value, starts)
    ensures r.Ok? && Symmetric(edges) ==> Disjoint(r.value)
  {
    var subgraphs: seq<set<EdgeVertex>> := [];
    var totalVisited: set<EdgeVertex> := {};
    var remaining := edges.Keys;
    starts := [];
    while remaining != {}
      invariant remaining <= edges.Keys
      invariant totalVisited == Union(subgraphs) && totalVisited <= edges.Keys
      invariant edges.Keys - remaining <= totalVisited
      invariant SetClosed(edges, totalVisited)
      invariant |starts| == |subgraphs| && forall i :: 0 <= i < |subgraphs| ==> Component(edges, subgraphs, starts, i)
      invariant Symmetric(edges) ==> Disjoint(subgraphs)
      decreases remaining
    {
      var s :| s in remaining;
      remaining := remaining - {s};
      if s in totalVisited {
        continue;
      }
      var sg := Explore(edges, s, totalVisited);
      if sg.Err? {
        return Err(sg.error), starts;
      }
      AppendComponent(edges, subgraphs, starts, s, sg.value);
      subgraphs := subgraphs + [sg.value];
      starts := starts + [s];
      totalVisited := totalVisited + sg.value;
    }
    r := Ok(subgraphs);
  }

  lemma AppendComponent(edges: Edges, ss: seq<set<EdgeVertex>>, starts: seq<EdgeVertex>, s: EdgeVertex,
                        sg: set<EdgeVertex>)
    requires |starts| == |ss| && forall i :: 0 <= i < |ss| ==> Component(edges, ss, starts, i)
    requires s !in Union(ss) && s in sg && SetClosed(edges, sg) && Generated(edges, s, sg)
    ensures Union(ss + [sg]) == Union(ss) + sg
    ensures forall i :: 0 <= i < |ss| + 1 ==> Component(edges, ss + [sg], starts + [s], i)
    ensures Symmetric(edges) && Disjoint(ss) && sg !! Union(ss) ==> Disjoint(ss + [sg])
  {
    assert (ss + [sg])[..|ss|] == ss;
    forall i | 0 <= i < |ss| + 1 ensures Component(edges, ss + [sg], starts + [s], i) {
      if i < |ss| {
        assert Component(edges, ss, starts, i);
      }
    }
    if Symmetric(edges) && Disjoint(ss) && sg !! Union(ss) {
      forall i, j | 0 <= i < j < |ss| + 1 ensures (ss + [sg])[i] !! (ss + [sg])[j] {
        if j == |ss| {
          assert forall v :: v in ss[i] ==> v in Union(ss);
        }
      }
    }
  }

  // ---------------------------------------------------------------------------------------
  // Overlapping subgraphs when an edge has no reverse
  // ---------------------------------------------------------------------------------------

  /** Two floors of block (0, 0), 0 and 50 hundredths high, and one floor of block (1, 0), 40 high. */
  const A1 := EdgeVertex(0, 0, 0)
  const A2 := EdgeVertex(0, 0, 50)
  const B1 := EdgeVertex(1, 0, 40)

  /**
   * Both floors of the first block lead to the one floor of the next, which leads back to
   * the first floor it meets only: the dictionary the first-qualifying-floor rule gives.
   */
  function OneWay(): (e: Edges)
    ensures Closed(e) && !Symmetric(e)
  {
    var e := map[A1 := [B1], A2 := [B1], B1 := [A1]];
    assert A2 in e && B1 in e[A2] && A2 !in e[B1];
    e
  }

  /** The walk from A1 and then the walk from A2 are a partition of OneWay. */
  lemma OneWayPartition()
    ensures Partition(OneWay(), [{A1, B1}, {A2, B1, A1}], [A1, A2])
  {
    var ss := [{A1, B1}, {A2, B1, A1}];
    OneWayCovered(ss);
    OneWayFirst(ss);
    OneWaySecond(ss);
  }

  lemma OneWayCovered(ss: seq<set<EdgeVertex>>)
    requires ss == [{A1, B1}, {A2, B1, A1}]
    ensures Union(ss) == OneWay().Keys
  {
    assert forall v :: v in OneWay().Keys ==> v in ss[1];
    assert forall v :: v in Union(ss) ==> v in ss[0] || v in ss[1];
  }

  lemma OneWayFirst(ss: seq<set<EdgeVertex>>)
    requires ss == [{A1, B1}, {A2, B1, A1}]
    ensures Component(OneWay(), ss, [A1, A2], 0)
  {
    var e := OneWay();
    assert SetClosed(e, ss[0]);
    forall c | SetClosed(e, c) && A1 in c ensures ss[0] <= c {
      assert B1 in e[A1];
    }
  }

  lemma OneWaySecond(ss: seq<set<EdgeVertex>>)
    requires ss == [{A1, B1}, {A2, B1, A1}]
    ensures Component(OneWay(), ss, [A1, A2], 1)
  {
    var e := OneWay();
    assert SetClosed(e, ss[1]);
    forall c | SetClosed(e, c) && A2 in c ensures ss[1] <= c {
      assert B1 in e[A2] && A1 in e[B1];
    }
    assert A2 !in ss[0];
  }

  /**
   * Whenever the walk of ComputeSubgraphs starts at A1, the subgraph found later from A2
   * overlaps the first one in B1.
   */
  lemma OverlapWithoutSymmetry(ss: seq<set<EdgeVertex>>, starts: seq<EdgeVertex>)
    requires Partition(OneWay(), ss, starts) && |ss| > 0 && starts[0] == A1
    ensures !Disjoint(ss)
  {
    var e := OneWay();
    assert Component(e, ss, starts, 0);
    assert B1 in ss[0] by { assert A1 in ss[0] && B1 in e[A1]; }
    assert SetClosed(e, {A1, B1});
    assert A2 !in ss[0];
    assert A2 in Union(ss);
    var i :| 0 <= i < |ss| && A2 in ss[i];
    assert Component(e, ss, starts, i);
    assert B1 in ss[i] && 0 < i;
    assert B1 in ss[0] * ss[i];
  }

  // ---------------------------------------------------------------------------------------
  // Disjoint subgraphs: a walk that does not enter earlier subgraphs
  // ---------------------------------------------------------------------------------------

  /** Every edge from subgraph i leads into it or into an earlier subgraph. */
  predicate Settled(edges: Edges, ss: seq<set<EdgeVertex>>, i: int)
    requires 0 <= i < |ss|
  {
    forall v, n :: v in ss[i] && v in edges && n in edges[v] ==>
      n in ss[i] || exists j :: 0 <= j < i && n in ss[j]
  }

  /**
   * The breadth-first walk from start that also skips the vertices of the subgraphs found
   * before: the vertices it collects are new, and every edge from them leads to them or to
   * an earlier subgraph.
   */
  method ExploreUnvisited(edges: Edges, start: EdgeVertex, visited: set<EdgeVertex>) returns (r: Result<set<EdgeVertex>>)
    requires start in edges && start !in visited && visited <= edges.Keys
    ensures r.Err? ==> r.error == KeyNotFound && !Closed(edges)
    ensures r.Ok? ==> start in r.value && r.value <= edges.Keys && r.value !! visited
    ensures r.Ok? ==> forall v, n :: v in r.value && n in edges[v] ==> n in r.value || n in visited
  {
    var queue := [start];
    var current: set<EdgeVertex> := {};
    while queue != []
      invariant current <= edges.Keys && current !! visited
      invariant start in current || start in queue
      invariant forall u, n :: u in current && n in edges[u] ==> n in current || n in queue || n in visited
      invariant Closed(edges) ==> forall q :: q in queue ==> q in edges
      decreases edges.Keys - current, |queue|
    {
      var cur := queue[0];
      ghost var before := queue;
      queue := queue[1..];
      assert forall q :: q in before ==> q == cur || q in queue;
      if cur in current || cur in visited {
        continue;
      }
      if cur !in edges {
        assert cur in before;
        return Err(KeyNotFound);
      }
      current := current + {cur};
      queue := queue + edges[cur];
    }
    r := Ok(current);
  }

  /**
   * ComputeSubgraphs with each walk kept out of the subgraphs found before: the subgraphs
   * cover the keys, no two share a vertex, and each edge leads within its subgraph or back
   * to an earlier one.
   */
  method ComputeDisjointSubgraphs(edges: Edges) returns (r: Result<seq<set<EdgeVertex>>>, ghost starts: seq<EdgeVertex>)
    ensures r.Ok? <==> Closed(edges)
    ensures r.Err? ==> r.error == KeyNotFound
    ensures r.Ok? ==> Union(r.value) == edges.Keys && Disjoint(r.value) && |starts| == |r.value|
    ensures r.Ok? ==> forall i :: 0 <= i < |r.value| ==> starts[i] in r.value[i] && Settled(edges, r.value, i)
  {
    var subgraphs: seq<set<EdgeVertex>> := [];
    var totalVisited: set<EdgeVertex> := {};
    var remaining := edges.Keys;
    starts := [];
    while remaining != {}
      invariant remaining <= edges.Keys
      invariant totalVisited == Union(subgraphs) && totalVisited <= edges.Keys
      invariant edges.Keys - remaining <= totalVisited
      invariant Disjoint(subgraphs)
      invariant |starts| == |subgraphs|
      invariant forall i :: 0 <= i < |subgraphs| ==> starts[i] in subgraphs[i] && Settled(edges, subgraphs, i)
      decreases remaining
    {
      var s :| s in remaining;
      remaining := remaining - {s};
      if s in totalVisited {
        continue;
      }
      var sg := ExploreUnvisited(edges, s, totalVisited);
      if sg.Err? {
        return Err(sg.error), starts;
      }
      AppendSettled(edges, subgraphs, starts, s, sg.value);
      subgraphs := subgraphs + [sg.value];
      starts := starts + [s];
      totalVisited := totalVisited + sg.value;
    }
    SettledClosed(edges, subgraphs);
    r := Ok(subgraphs);
  }

  lemma AppendSettled(edges: Edges, ss: seq<set<EdgeVertex>>, starts: seq<EdgeVertex>, s: EdgeVertex,
                      sg: set<EdgeVertex>)
    requires |starts| == |ss| && Disjoint(ss)
    requires forall i :: 0 <= i < |ss| ==> starts[i] in ss[i] && Settled(edges, ss, i)
    requires s in sg && sg !! Union(ss) && sg <= edges.Keys
    requires forall v, n :: v in sg && n in edges[v] ==> n in sg || n in Union(ss)
    ensures Union(ss + [sg]) == Union(ss) + sg
    ensures Disjoint(ss + [sg])
    ensures forall i :: 0 <= i < |ss| + 1 ==> (starts + [s])[i] in (ss + [sg])[i] && Settled(edges, ss + [sg], i)
  {
    var t := ss + [sg];
    assert t[..|ss|] == ss;
    AppendDisjoint(ss, sg);
    forall i | 0 <= i < |t| ensures (starts + [s])[i] in t[i] && Settled(edges, t, i) {
      if i < |ss| {
        SettledKept(edges, ss, sg, i);
      } else {
        SettledLast(edges, ss, sg);
      }
    }
  }

  lemma AppendDisjoint(ss: seq<set<EdgeVertex>>, sg: set<EdgeVertex>)
    requires Disjoint(ss) && sg !! Union(ss)
    ensures Disjoint(ss + [sg])
  {
    var t := ss + [sg];
    forall i, j | 0 <= i < j < |t| ensures t[i] !! t[j] {
      if j == |ss| {
        assert forall v :: v in ss[i] ==> v in Union(ss);
      }
    }
  }

  /** A settled subgraph stays settled when another is appended. */
  lemma SettledKept(edges: Edges, ss: seq<set<EdgeVertex>>, sg: set<EdgeVertex>, i: nat)
    requires i < |ss| && Settled(edges, ss, i)
    ensures Settled(edges, ss + [sg], i)
  {
    var t := ss + [sg];
    forall v, n | v in t[i] && v in edges && n in edges[v]
      ensures n in t[i] || exists j :: 0 <= j < i && n in t[j]
    {
      if n !in t[i] {
        var j :| 0 <= j < i && n in ss[j];
        assert t[j] == ss[j];
      }
    }
  }

  /** An appended subgraph whose edges stay in it or go into earlier ones is settled. */
  lemma SettledLast(edges: Edges, ss: seq<set<EdgeVertex>>, sg: set<EdgeVertex>)
    requires sg <= edges.Keys
    requires forall v, n :: v in sg && n in edges[v] ==> n in sg || n in Union(ss)
    ensures Settled(edges, ss + [sg], |ss|)
  {
    var t := ss + [sg];
    forall v, n | v in t[|ss|] && v in edges && n in edges[v]
      ensures n in t[|ss|] || exists j :: 0 <= j < |ss| && n in t[j]
    {
      if n !in sg {
        var j :| 0 <= j < |ss| && n in ss[j];
        assert t[j] == ss[j];
      }
    }
  }

  /** Settled subgraphs covering the keys leave no edge dangling. */
  lemma SettledClosed(edges: Edges, ss: seq<set<EdgeVertex>>)
    requires Union(ss) == edges.Keys
    requires forall i :: 0 <= i < |ss| ==> Settled(edges, ss, i)
    ensures Closed(edges)
  {
    forall v, n | v in edges && n in edges[v] ensures n in edges {
      var i :| 0 <= i < |ss| && v in ss[i];
      assert Settled(edges, ss, i);
      if n !in ss[i] {
        var j :| 0 <= j < i && n in ss[j];
      }
    }
  }

  /** Subgraphs partitioning a closed dictionary leave no edge dangling. */
  lemma PartitionClosed(edges: Edges, ss: seq<set<EdgeVertex>>, starts: seq<EdgeVertex>)
    requires Partition(edges, ss, starts)
    ensures Closed(edges)
    ensures forall v, i :: 0 <= i < |ss| && v in ss[i] ==> v in edges
  {
    forall v, n | v in edges && n in edges[v] ensures n in edges {
      var i :| 0 <= i < |ss| && v in ss[i];
      assert Component(edges, ss, starts, i);
    }
    forall v, i | 0 <= i < |ss| && v in ss[i] ensures v in edges {
      assert Component(edges, ss, starts, i);
    }
  }

  /** A subgraph below this many vertices is dropped when OPTION_REMOVE_SMALL_GRAPHS is set. */
  const MinSubgraphSize := 100

  /** `subgraphs.Where(vertices => vertices.Count >= 100)` when removeSmall holds, the identity otherwise. */
  function SizeFilter(ss: seq<set<EdgeVertex>>, removeSmall: bool): (r: seq<set<EdgeVertex>>)
    ensures !removeSmall ==> r == ss
    ensures removeSmall ==> forall g :: g in r <==> g in ss && |g| >= MinSubgraphSize
    ensures |r| <= |ss|
  {
    if !removeSmall || ss == [] then ss
    else
      var rest := SizeFilter(ss[..|ss| - 1], true);
      var last := ss[|ss| - 1];
      assert ss == ss[..|ss| - 1] + [last];
      if |last| >= MinSubgraphSize then rest + [last] else rest
  }

  /** The filter keeps the order of the subgraphs: filtering a concatenation concatenates the results. */
  lemma {:induction false} SizeFilterConcat(a: seq<set<EdgeVertex>>, b: seq<set<EdgeVertex>>, removeSmall: bool)
    ensures SizeFilter(a + b, removeSmall) == SizeFilter(a, removeSmall) + SizeFilter(b, removeSmall)
    decreases |b|
  {
    if removeSmall && b != [] {
      var b' := b[..|b| - 1];
      assert (a + b)[..|a + b| - 1] == a + b';
      SizeFilterConcat(a, b', removeSmall);
    } else if removeSmall {
      assert a + b == a;
    }
  }

  /** Filtering keeps the pieces of a partition that are large enough, each still closed and generated. */
  lemma SizeFilterKeepsComponents(edges: Edges, ss: seq<set<EdgeVertex>>, starts: seq<EdgeVertex>, removeSmall: bool)
    requires Partition(edges, ss, starts)
    ensures forall g :: g in SizeFilter(ss, removeSmall) ==> SetClosed(edges, g) && exists s :: s in g && Generated(edges, s, g)
  {
    forall g | g in SizeFilter(ss, removeSmall) ensures SetClosed(edges, g) && exists s :: s in g && Generated(edges, s, g) {
      var i :| 0 <= i < |ss| && ss[i] == g;
      assert Component(edges, ss, starts, i);
    }
  }
}
