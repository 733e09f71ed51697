/// The path search of CompiledNavMesh: A* over the floors of the grid, the walk back
/// from the goal along the recorded predecessors, and the straight-run reduction of
/// the resulting points.
module NavMeshPathing {
  import opened Outcome
  import opened Bytes
  import opened CompiledNavMesh
  import NavMeshUtil
  import CsMath
  import PriorityQueue

  /** A world position: Vector3 with the float coordinates taken as reals. */
  type Vec3 = (real, real, real)

  // ---------------------------------------------------------------------------
  // Costs

  /**
   * Path costs are counted in ten-thousandths: every step cost of the search (1, 1.4142
   * and halves of a bit count) is a whole number of them, so the sums are exact.
   */
  const Unit := 10000

  /** The blocked directions of a node's floor, as counted by NumberOfSetBits. */
  function FlagWeight(n: NodeId): (w: nat)
    ensures w <= 8
  {
    NumberOfSetBitsCounts(Bits(n.flags) as bv32);
    NumberOfSetBits(Bits(n.flags) as bv32) as int
  }

  /** The weight is the number of set bits of the flags byte. */
  lemma FlagWeightCounts(n: NodeId)
    ensures FlagWeight(n) == BitsSet(Bits(n.flags) as bv32) as int
  {
    NumberOfSetBitsCounts(Bits(n.flags) as bv32);
  }

  /**
   * The cost of one step of `test`: 1.4142 for a diagonal direction (a bit of 0xAA),
   * 1 for an axis direction, plus half the blocked directions of the floor reached.
   */
  function StepCost(direction: NavMeshUtil.Flags, next: NodeId): (c: nat)
    ensures Unit <= c <= 54142
  {
    (if direction & 0xAA != 0 then 14142 else 10000) + 5000 * FlagWeight(next)
  }

  /** A step costs 1 or 1.4142 more than half the blocked directions of the floor reached. */
  lemma StepCostByDirection(direction: NavMeshUtil.Flags, next: NodeId)
    requires NavMeshUtil.IsDirection(direction)
    ensures direction in {NavMeshUtil.Top, NavMeshUtil.Right, NavMeshUtil.Bottom, NavMeshUtil.Left}
            ==> StepCost(direction, next) == Unit + 5000 * FlagWeight(next)
    ensures direction in {NavMeshUtil.TopRight, NavMeshUtil.BottomRight, NavMeshUtil.BottomLeft, NavMeshUtil.TopLeft}
            ==> StepCost(direction, next) == 14142 + 5000 * FlagWeight(next)
  {
  }

  /**
   * The heuristic: the distance between the two blocks (Vector2.Distance, a square
   * root, taken as a parameter) plus the blocked directions of the node reached.
   */
  function Heuristic(m: Mesh, distance: (NavMeshUtil.Point, NavMeshUtil.Point) -> real,
                     a: NodeId, b: NodeId): real
    requires m.blockWidth > 0
  {
    distance(BlockXYFromIndex(m, a.blockIndex), BlockXYFromIndex(m, b.blockIndex)) + FlagWeight(b) as real
  }

  /** The frontier priority: (int)((cost + heuristic) * 10), truncating toward zero. */
  function Priority(m: Mesh, distance: (NavMeshUtil.Point, NavMeshUtil.Point) -> real,
                    goal: NodeId, next: NodeId, newCost: int): int
    requires m.blockWidth > 0
  {
    CsMath.Truncate((newCost as real / Unit as real + Heuristic(m, distance, goal, next)) * 10.0)
  }

  // ---------------------------------------------------------------------------
  // The search state

  /** The floor n is reached from floor c by GetNeighbor in direction d. */
  ghost predicate StepTo(m: Mesh, c: NodeId, n: NodeId, d: NavMeshUtil.Flags)
    requires QueryReady(m)
  {
    NavMeshUtil.IsDirection(d) && Bits(c.flags) & d == 0
    && var i := NeighborIndex(m, c.blockIndex, NavMeshUtil.OffsetFromDirectionFlag(d).value);
       n.blockIndex == i
       && exists k :: FirstReachable(m, c, i, k)
                   && EntryAt(m.multiheights, m.grid[i], k) == Entry(n.flags, n.encZ)
  }

  /** Every element waiting in the frontier has a recorded cost. */
  ghost predicate FrontierRecorded(items: map<int, seq<NodeId>>, cost: map<NodeId, int>)
  {
    forall p, j :: p in items && 0 <= j < |items[p]| ==> items[p][j] in cost
  }

  /** Every recorded node but the start is reached in one step from its predecessor. */
  ghost predicate Stepped(m: Mesh, start: NodeId, came: map<NodeId, NodeId>)
  {
    QueryReady(m)
    && forall k :: k in came && k != start ==> exists d :: StepTo(m, came[k], k, d)
  }

  /**
   * What the search keeps true of came_from and cost_so_far: the same keys; the start
   * at cost 0 with `root` as its predecessor (default(NodeId) in AStar); no negative cost; and every other
   * recorded node reached in one step of the mesh from its predecessor, which is
   * recorded too and costs at least 1 less.
   */
  ghost predicate Search(m: Mesh, start: NodeId, root: NodeId, came: map<NodeId, NodeId>, cost: map<NodeId, int>)
  {
    Costed(start, root, came, cost) && Stepped(m, start, came)
  }

  /** The cost half of Search. */
  ghost predicate Costed(start: NodeId, root: NodeId, came: map<NodeId, NodeId>, cost: map<NodeId, int>)
  {
    came.Keys == cost.Keys
    && start in cost && cost[start] == 0 && came[start] == root
    && (forall k :: k in cost ==> cost[k] >= 0)
    && (forall k :: k in came && k != start ==>
          came[k] in cost && cost[k] >= cost[came[k]] + Unit)
  }

  /** Some node is newly recorded in `after`, or recorded at a lower cost than before. */
  ghost predicate Dropped(before: map<NodeId, int>, after: map<NodeId, int>)
  {
    exists k :: k in after && (k !in before || after[k] < before[k])
  }

  /** Once recorded, a node stays recorded and its cost never grows. */
  ghost predicate NoCostGrows(before: map<NodeId, int>, after: map<NodeId, int>)
  {
    forall k :: k in before ==> k in after && after[k] <= before[k]
  }

  /**
   * What `test` does with the neighbour `next` found from `current`, at the new cost c
   * (the current cost plus the step cost): when next is new or now reached more
   * cheaply, its cost becomes c, its predecessor `current`, and it is pushed with
   * `priority` (the Priority of c); otherwise came_from, cost_so_far and the frontier's
   * buckets stay as they are.
   */
  ghost predicate Relaxes(came: map<NodeId, NodeId>, cost: map<NodeId, int>, items: map<int, seq<NodeId>>,
                          current: NodeId, next: NodeId, c: int, priority: int,
                          came': map<NodeId, NodeId>, cost': map<NodeId, int>, items': map<int, seq<NodeId>>)
  {
    if next !in cost || c < cost[next] then
      came' == came[next := current] && cost' == cost[next := c] && items' == PriorityQueue.Pushed(items, next, priority)
    else
      came' == came && cost' == cost && items' == items
  }

  /** A pushed element that has a recorded cost keeps the frontier recorded. */
  lemma PushRecorded(items: map<int, seq<NodeId>>, cost: map<NodeId, int>, next: NodeId, priority: int)
    requires FrontierRecorded(items, cost) && next in cost
    ensures FrontierRecorded(PriorityQueue.Pushed(items, next, priority), cost)
  {
    var items' := PriorityQueue.Pushed(items, next, priority);
    forall p, j | p in items' && 0 <= j < |items'[p]| ensures items'[p][j] in cost {
      if p != priority || (p in items && j < |items[p]|) {
        assert items'[p][j] == items[p][j];
      }
    }
  }

  /** Recording `next` at a cost at least 1 above its predecessor's keeps the cost half of the search state. */
  lemma RecordKeeps(start: NodeId, root: NodeId, came: map<NodeId, NodeId>, cost: map<NodeId, int>,
                    current: NodeId, next: NodeId, c: int)
    requires Costed(start, root, came, cost) && current in cost
    requires c >= cost[current] + Unit && (next !in cost || c < cost[next])
    ensures Costed(start, root, came[next := current], cost[next := c])
    ensures NoCostGrows(cost, cost[next := c])
  {
    var came', cost' := came[next := current], cost[next := c];
    assert next != start;
    forall k | k in came' && k != start
      ensures came'[k] in cost' && cost'[k] >= cost'[came'[k]] + Unit
    {
    }
  }

  /** Recording `next` as reached from `current` in one step keeps every recorded node a step from its predecessor. */
  lemma StepKeeps(m: Mesh, start: NodeId, came: map<NodeId, NodeId>, current: NodeId, next: NodeId,
                  direction: NavMeshUtil.Flags)
    requires Stepped(m, start, came) && StepTo(m, current, next, direction)
    ensures Stepped(m, start, came[next := current])
  {
    var came' := came[next := current];
    forall k | k in came' && k != start
      ensures exists d :: StepTo(m, came'[k], k, d)
    {
      if k == next {
        assert StepTo(m, came'[k], k, direction);
      }
    }
  }

  /** A frontier recorded in `cost` stays recorded when keys are only added. */
  lemma Widen(items: map<int, seq<NodeId>>, cost: map<NodeId, int>, cost': map<NodeId, int>)
    requires FrontierRecorded(items, cost) && cost.Keys <= cost'.Keys
    ensures FrontierRecorded(items, cost')
  {
  }

  /**
   * The local function `test`: look up the neighbour in a direction (ghost `next`, the
   * "no node" result when blocked) and record it as Relaxes says. GetNeighbor's
   * exception propagates.
   */
  method Test(m: Mesh, distance: (NavMeshUtil.Point, NavMeshUtil.Point) -> real, start: NodeId, ghost root: NodeId, goal: NodeId,
              frontier: PriorityQueue.PriorityQueue<NodeId>, came: map<NodeId, NodeId>, cost: map<NodeId, int>,
              current: NodeId, direction: NavMeshUtil.Flags)
    returns (r: Result<(map<NodeId, NodeId>, map<NodeId, int>)>, ghost next: NodeId, ghost c: int, ghost priority: int)
    requires QueryReady(m) && frontier.Valid() && Search(m, start, root, came, cost)
    requires FrontierRecorded(frontier.items, cost) && current in cost
    modifies frontier
    ensures frontier.Valid()
    ensures r.Err? ==> frontier.items == old(frontier.items)
    ensures r.Ok? ==> Search(m, start, root, r.value.0, r.value.1) && FrontierRecorded(frontier.items, r.value.1)
                      && NoCostGrows(cost, r.value.1)
    ensures r.Ok? ==> (r.value == (came, cost) && frontier.items == old(frontier.items)) || Dropped(cost, r.value.1)
    ensures r.Ok? && next.blockIndex == -1 ==> r.value == (came, cost) && frontier.items == old(frontier.items)
    ensures r.Ok? && next.blockIndex != -1 ==>
              StepTo(m, current, next, direction)
              && c == cost[current] + StepCost(direction, next) && priority == Priority(m, distance, goal, next, c)
    ensures r.Ok? && next.blockIndex != -1 ==>
              Relaxes(came, cost, old(frontier.items), current, next, c, priority, r.value.0, r.value.1, frontier.items)
  {
    next, c, priority := NoNode, 0, 0;
    var found :- GetNeighbor(m, current, direction);
    next := found;
    if found.blockIndex == -1 {
      return Ok((came, cost)), next, c, priority;
    }
    assert StepTo(m, current, found, direction);
    var came', cost';
    came', cost', c, priority := Relax(m, distance, start, root, goal, frontier, came, cost, current, direction, found);
    return Ok((came', cost')), next, c, priority;
  }

  /** The relaxation step of Test for a neighbour `next` that exists: record and push it when it is new or cheaper. */
  method Relax(m: Mesh, distance: (NavMeshUtil.Point, NavMeshUtil.Point) -> real, start: NodeId, ghost root: NodeId,
               goal: NodeId, frontier: PriorityQueue.PriorityQueue<NodeId>, came: map<NodeId, NodeId>,
               cost: map<NodeId, int>, current: NodeId, direction: NavMeshUtil.Flags, next: NodeId)
    returns (came': map<NodeId, NodeId>, cost': map<NodeId, int>, ghost c: int, ghost priority: int)
    requires QueryReady(m) && frontier.Valid() && Search(m, start, root, came, cost)
    requires FrontierRecorded(frontier.items, cost) && current in cost && StepTo(m, current, next, direction)
    modifies frontier
    ensures frontier.Valid()
    ensures Search(m, start, root, came', cost') && FrontierRecorded(frontier.items, cost') && NoCostGrows(cost, cost')
    ensures ((came', cost') == (came, cost) && frontier.items == old(frontier.items)) || Dropped(cost, cost')
    ensures c == cost[current] + StepCost(direction, next) && priority == Priority(m, distance, goal, next, c)
    ensures Relaxes(came, cost, old(frontier.items), current, next, c, priority, came', cost', frontier.items)
  {
    var newCost := cost[current] + StepCost(direction, next);
    var p := Priority(m, distance, goal, next, newCost);
    c, priority := newCost, p;
    if next !in cost || newCost < cost[next] {
      PushKeeps(m, start, root, came, cost, frontier.items, current, direction, next, newCost, p);
      frontier.Push(next, p);
      came', cost' := came[next := current], cost[next := newCost];
    } else {
      came', cost' := came, cost;
    }
  }

  /** Recording `next` one step from `current` at cost c, new or lower, and pushing it keeps the search state. */
  lemma PushKeeps(m: Mesh, start: NodeId, root: NodeId, came: map<NodeId, NodeId>, cost: map<NodeId, int>,
                  items: map<int, seq<NodeId>>, current: NodeId, direction: NavMeshUtil.Flags, next: NodeId, c: int,
                  priority: int)
    requires Search(m, start, root, came, cost) && FrontierRecorded(items, cost) && current in cost
    requires StepTo(m, current, next, direction)
    requires c >= cost[current] + Unit && (next !in cost || c < cost[next])
    ensures Search(m, start, root, came[next := current], cost[next := c])
    ensures FrontierRecorded(PriorityQueue.Pushed(items, next, priority), cost[next := c])
    ensures NoCostGrows(cost, cost[next := c]) && Dropped(cost, cost[next := c])
  {
    RecordKeeps(start, root, came, cost, current, next, c);
    StepKeeps(m, start, came, current, next, direction);
    Widen(items, cost, cost[next := c]);
    PushRecorded(items, cost[next := c], next, priority);
    assert next in cost[next := c];
  }

  /** Popping the frontier keeps what is left recorded. */
  lemma PopRecorded(items: map<int, seq<NodeId>>, cost: map<NodeId, int>, k: int)
    requires FrontierRecorded(items, cost) && k in items && items[k] != []
    ensures items[k][0] in cost
    ensures FrontierRecorded(PriorityQueue.Popped(items, k), cost)
  {
    var items' := PriorityQueue.Popped(items, k);
    forall p, j | p in items' && 0 <= j < |items'[p]| ensures items'[p][j] in cost {
      if p == k {
        assert items'[p][j] == items[p][j + 1];
      }
    }
  }

  /** A drop from b to c is a drop from a to c when nothing grew from a to b. */
  lemma DroppedLater(a: map<NodeId, int>, b: map<NodeId, int>, c: map<NodeId, int>)
    requires NoCostGrows(a, b) && Dropped(b, c)
    ensures Dropped(a, c)
  {
    var k :| k in c && (k !in b || c[k] < b[k]);
    assert k in c && (k !in a || c[k] < a[k]);
  }

  /** A drop from a to b stays a drop from a to c when nothing grew from b to c. */
  lemma DroppedStays(a: map<NodeId, int>, b: map<NodeId, int>, c: map<NodeId, int>)
    requires Dropped(a, b) && NoCostGrows(b, c)
    ensures Dropped(a, c)
  {
    var k :| k in b && (k !in a || b[k] < a[k]);
    assert k in c && (k !in a || c[k] < a[k]);
  }

  /** The eight `test` calls of one iteration, in the source's order. */
  method Expand(m: Mesh, distance: (NavMeshUtil.Point, NavMeshUtil.Point) -> real, start: NodeId, ghost root: NodeId, goal: NodeId,
                frontier: PriorityQueue.PriorityQueue<NodeId>, came: map<NodeId, NodeId>, cost: map<NodeId, int>,
                current: NodeId)
    returns (r: Result<(map<NodeId, NodeId>, map<NodeId, int>)>)
    requires QueryReady(m) && frontier.Valid() && Search(m, start, root, came, cost)
    requires FrontierRecorded(frontier.items, cost) && current in cost
    modifies frontier
    ensures frontier.Valid()
    ensures r.Ok? ==> Search(m, start, root, r.value.0, r.value.1) && FrontierRecorded(frontier.items, r.value.1)
                      && NoCostGrows(cost, r.value.1)
    ensures r.Ok? ==> frontier.items == old(frontier.items) || Dropped(cost, r.value.1)
  {
    var state := (came, cost);
    var directions := [NavMeshUtil.Top, NavMeshUtil.TopLeft, NavMeshUtil.Right, NavMeshUtil.BottomRight,
                       NavMeshUtil.Bottom, NavMeshUtil.BottomLeft, NavMeshUtil.Left, NavMeshUtil.TopRight];
    for i := 0 to 8
      invariant frontier.Valid() && Search(m, start, root, state.0, state.1) && FrontierRecorded(frontier.items, state.1)
      invariant NoCostGrows(cost, state.1)
      invariant frontier.items == old(frontier.items) || Dropped(cost, state.1)
    {
      ghost var items := frontier.items;
      var t, next, c, priority := Test(m, distance, start, root, goal, frontier, state.0, state.1, current, directions[i]);
      if t.Err? {
        return Err(t.error);
      }
      if Dropped(state.1, t.value.1) {
        DroppedLater(cost, state.1, t.value.1);
      } else if items != old(frontier.items) {
        DroppedStays(cost, state.1, t.value.1);
      }
      state := t.value;
    }
    return Ok(state);
  }

  // ---------------------------------------------------------------------------
  // Why the search ends

  /** The nodes the search can record: the start and any floor of a block of the grid. */
  ghost function Universe(m: Mesh, start: NodeId): set<NodeId>
  {
    {start} + set i, z, f | 0 <= i < |m.grid| && 0 <= z < 0x1_0000 && 0 <= f < 0x100 :: NodeId(i, z, f)
  }

  /** One step of the mesh leads to a floor of a block of the grid. */
  lemma StepInUniverse(m: Mesh, start: NodeId, c: NodeId, n: NodeId, d: NavMeshUtil.Flags)
    requires QueryReady(m) && StepTo(m, c, n, d)
    ensures n in Universe(m, start)
  {
    assert n == NodeId(n.blockIndex, n.encZ as int, n.flags as int);
  }

  /** Everything the search records lies in the universe. */
  lemma RecordedInUniverse(m: Mesh, start: NodeId, root: NodeId, came: map<NodeId, NodeId>, cost: map<NodeId, int>)
    requires Search(m, start, root, came, cost)
    ensures cost.Keys <= Universe(m, start)
  {
    forall k | k in cost ensures k in Universe(m, start) {
      if k != start {
        var d :| StepTo(m, came[k], k, d);
        StepInUniverse(m, start, came[k], k, d);
      }
    }
  }

  /** The cost still to be lost: one pair for each whole unit a recorded cost could still drop. */
  ghost function Potential(cost: map<NodeId, int>): set<(NodeId, int)>
  {
    set k, j | k in cost && 0 <= j < cost[k] :: (k, j)
  }

  /** With the same nodes recorded, costs that only drop lose potential, and lose some if one dropped. */
  lemma PotentialDrops(cost: map<NodeId, int>, cost': map<NodeId, int>)
    requires cost.Keys == cost'.Keys && NoCostGrows(cost, cost') && Dropped(cost, cost')
    requires forall k :: k in cost' ==> cost'[k] >= 0
    ensures Potential(cost') < Potential(cost)
  {
    var k :| k in cost' && (k !in cost || cost'[k] < cost[k]);
    assert (k, cost'[k]) in Potential(cost);
    assert (k, cost'[k]) !in Potential(cost');
  }

  /** Costs that never grew and never dropped are the same costs. */
  lemma Unchanged(cost: map<NodeId, int>, cost': map<NodeId, int>)
    requires NoCostGrows(cost, cost') && !Dropped(cost, cost')
    ensures cost' == cost
  {
    assert forall k :: k in cost' ==> k in cost && cost'[k] == cost[k];
  }

  /**
   * One iteration of the search makes progress: it records a new node, or lowers a
   * recorded cost, or leaves the costs as they were (and only shrinks the frontier).
   */
  lemma Progress(u: set<NodeId>, cost: map<NodeId, int>, cost': map<NodeId, int>)
    requires NoCostGrows(cost, cost') && cost'.Keys <= u
    requires forall k :: k in cost' ==> cost'[k] >= 0
    ensures u - cost'.Keys < u - cost.Keys
            || (u - cost'.Keys == u - cost.Keys && Potential(cost') < Potential(cost))
            || (cost' == cost && !Dropped(cost, cost'))
  {
    if !Dropped(cost, cost') {
      Unchanged(cost, cost');
    } else if cost'.Keys == cost.Keys {
      PotentialDrops(cost, cost');
    } else {
      var k :| k in cost' && k !in cost;
      assert k in u - cost.Keys && k !in u - cost'.Keys;
    }
  }

  /**
   * AStar: pop the cheapest frontier node until the goal is popped or the frontier
   * empties, relaxing its eight neighbours each time. The start's predecessor is
   * `root`. The result is came_from; the ghost `cost` is cost_so_far, against which
   * every recorded predecessor is one step of the mesh away and at least 1 cheaper
   * than the node it leads to. When start is the goal it is popped first, so nothing
   * but the start is recorded. The search ends: every iteration records a new floor
   * of the finite grid, lowers a recorded cost, or shrinks the frontier.
   */
  method AStarFrom(m: Mesh, distance: (NavMeshUtil.Point, NavMeshUtil.Point) -> real, start: NodeId, root: NodeId,
                   goal: NodeId)
    returns (r: Result<map<NodeId, NodeId>>, ghost cost: map<NodeId, int>)
    requires QueryReady(m)
    ensures r.Ok? ==> Search(m, start, root, r.value, cost)
    ensures start == goal ==> r == Ok(map[start := root])
  {
    var frontier := new PriorityQueue.PriorityQueue<NodeId>();
    frontier.Push(start, 0);
    assert frontier.items == map[0 := [start]] by {
      assert [] + [start] == [start];
    }
    var came := map[start := root];
    var costSoFar := map[start := 0];
    cost := costSoFar;
    ghost var u := Universe(m, start);
    var first := true;
    while !frontier.Empty()
      invariant fresh(frontier) && frontier.Valid()
      invariant Search(m, start, root, came, costSoFar) && FrontierRecorded(frontier.items, costSoFar)
      invariant start == goal ==> first && came == map[start := root] && frontier.items == map[0 := [start]]
      decreases u - costSoFar.Keys, Potential(costSoFar), PriorityQueue.Count(frontier.items)
    {
      ghost var items := frontier.items;
      ghost var before := costSoFar;
      var popped := frontier.Pop();
      var current := popped.value;
      PopRecorded(items, costSoFar, PriorityQueue.FirstKey(items.Keys));
      PriorityQueue.PopCountsOne(items, PriorityQueue.FirstKey(items.Keys));
      if current == goal {
        break;
      }
      var expanded :- Expand(m, distance, start, root, goal, frontier, came, costSoFar, current);
      came, costSoFar := expanded.0, expanded.1;
      first := false;
      RecordedInUniverse(m, start, root, came, costSoFar);
      Progress(u, before, costSoFar);
    }
    return Ok(came), costSoFar;
  }

  /** AStar as written: the start's predecessor is default(NodeId). */
  method AStar(m: Mesh, distance: (NavMeshUtil.Point, NavMeshUtil.Point) -> real, start: NodeId, goal: NodeId)
    returns (r: Result<map<NodeId, NodeId>>, ghost cost: map<NodeId, int>)
    requires QueryReady(m)
    ensures r.Ok? ==> Search(m, start, DefaultNode, r.value, cost)
    ensures start == goal ==> r == Ok(map[start := DefaultNode])
  {
    r, cost := AStarFrom(m, distance, start, DefaultNode, goal);
  }

  /**
   * The gathering loop of findPath: walk came_from back from the goal, adding each
   * node's world point, until the predecessor is the start or a "no node" (negative
   * block index). The start's own point is never added. `point` is
   * WorldPointFromNode on the mesh. The ghost `nodes` are the nodes whose points were added, goal first; a missing key is the Dictionary's
   * exception. The walk ends because each step back lowers the cost by at least one.
   */
  method Backtrack(point: NodeId -> Vec3, graph: map<NodeId, NodeId>, ghost cost: map<NodeId, int>, start: NodeId,
                   ghost root: NodeId, goal: NodeId)
    returns (r: Result<seq<Vec3>>, ghost nodes: seq<NodeId>)
    requires Costed(start, root, graph, cost)
    ensures r.Err? ==> r.error == KeyNotFound
    ensures r.Ok? ==> |r.value| == |nodes| && forall k :: 0 <= k < |nodes| ==> r.value[k] == point(nodes[k])
    ensures nodes != [] ==> nodes[0] == goal
    ensures forall k :: 0 <= k < |nodes| ==> nodes[k] in graph && graph[nodes[k]].blockIndex >= 0
    ensures forall k :: 0 <= k < |nodes| - 1 ==> graph[nodes[k]] == nodes[k + 1]
    ensures forall k :: 1 <= k < |nodes| ==> nodes[k] != start
    ensures r.Ok? ==> var stop := if nodes == [] then goal else graph[nodes[|nodes| - 1]];
              (nodes != [] && stop == start) || (stop in graph && graph[stop].blockIndex < 0)
    ensures r.Err? ==> (if nodes == [] then goal else graph[nodes[|nodes| - 1]]) !in graph
  {
    var path: seq<Vec3> := [];
    nodes := [];
    var current := goal;
    while true
      invariant |path| == |nodes| && forall k :: 0 <= k < |nodes| ==> path[k] == point(nodes[k])
      invariant nodes == [] ==> current == goal
      invariant nodes != [] ==> nodes[0] == goal && nodes[|nodes| - 1] in graph && graph[nodes[|nodes| - 1]] == current
                                && current != start
      invariant forall k :: 0 <= k < |nodes| ==> nodes[k] in graph && graph[nodes[k]].blockIndex >= 0
      invariant forall k :: 0 <= k < |nodes| - 1 ==> graph[nodes[k]] == nodes[k + 1]
      invariant forall k :: 1 <= k < |nodes| ==> nodes[k] != start
      invariant nodes != [] ==> nodes[|nodes| - 1] != start ==> current in cost
      decreases if current == start then 1 else 0, if current in cost then cost[current] else 0
    {
      if current !in graph {
        return Err(KeyNotFound), nodes;
      }
      var next := graph[current];
      if next.blockIndex < 0 {
        break;
      }
      path := path + [point(current)];
      nodes := nodes + [current];
      if next == start {
        break;
      }
      current := next;
    }
    return Ok(path), nodes;
  }

  /** The reversing loop of findPath: the points from start to goal. */
  method Reverse(path: seq<Vec3>) returns (result: seq<Vec3>)
    ensures |result| == |path|
    ensures forall k :: 0 <= k < |path| ==> result[k] == path[|path| - 1 - k]
  {
    result := [];
    for i := |path| downto 0
      invariant |result| == |path| - i
      invariant forall k :: 0 <= k < |result| ==> result[k] == path[|path| - 1 - k]
    {
      result := result + [path[i]];
    }
  }

  /** Math.Abs on a float. */
  function AbsReal(x: real): (a: real)
    ensures a >= 0.0 && (a == x || a == -x)
  {
    if x < 0.0 then -x else x
  }

  /** The height change of the step into point i. */
  function DeltaZ(original: seq<Vec3>, i: nat): (d: real)
    requires 1 <= i < |original|
    ensures d == AbsReal(original[i - 1].2 - original[i].2)
  {
    AbsReal(original[i].2 - original[i - 1].2)
  }

  /** Every step after the first has the direction of the second step. */
  ghost predicate Straight(original: seq<Vec3>, dirOf: (Vec3, Vec3) -> NavMeshUtil.Flags)
    requires |original| >= 3
  {
    forall i :: 2 <= i < |original| ==> dirOf(original[i - 1], original[i]) == dirOf(original[1], original[2])
  }

  /** Consecutive height changes differ by less than 0.2. */
  ghost predicate Smooth(original: seq<Vec3>)
  {
    forall i :: 2 <= i < |original| ==> AbsReal(DeltaZ(original, i) - DeltaZ(original, i - 1)) < 0.2
  }

  /**
   * reducePath: fewer than two points reduce to none. Otherwise a point is kept only
   * where the walk breaks its pattern (a height change differing by 0.2 or more from the
   * previous one, or a direction outside the primary / secondary / major directions met
   * so far), and the last point is always kept; the first point is never kept.
   * `dirOf` is determineDirectionFromWorld. The ghost `picked` are the kept indices.
   */
  method ReducePath(original: seq<Vec3>, dirOf: (Vec3, Vec3) -> NavMeshUtil.Flags)
    returns (result: seq<Vec3>, ghost picked: seq<nat>)
    ensures |original| < 2 ==> result == []
    ensures |original| == 2 ==> result == [original[1]]
    ensures |original| >= 2 ==> result != [] && result[|result| - 1] == original[|original| - 1]
    ensures |picked| == |result|
    ensures forall k :: 0 <= k < |picked| ==> 1 <= picked[k] < |original| && result[k] == original[picked[k]]
    ensures forall k :: 0 < k < |picked| ==> picked[k - 1] < picked[k]
    ensures |original| >= 2 ==> picked[|picked| - 1] == |original| - 1
    ensures forall k :: 0 <= k < |picked| - 1 ==> picked[k] < |original| - 1
    ensures |original| >= 3 && Straight(original, dirOf) && Smooth(original) ==> result == [original[|original| - 1]]
  {
    if |original| < 2 {
      return [], [];
    }
    result, picked := [], [];
    ghost var straight := |original| >= 3 && Straight(original, dirOf) && Smooth(original);
    ghost var d := if |original| >= 3 then dirOf(original[1], original[2]) else 0;
    var lastDirection: NavMeshUtil.Flags := 0;
    var primaryDir: NavMeshUtil.Flags := 0;
    var secondaryDir: NavMeshUtil.Flags := 0;
    var majorDir: NavMeshUtil.Flags := 0;
    var previousDeltaZ := AbsReal(original[0].2 - original[1].2);
    var i := 2;
    while true
      invariant 2 <= i <= |original|
      invariant previousDeltaZ == DeltaZ(original, i - 1)
      invariant |picked| == |result| && (i == 2 ==> result == [])
      invariant forall k :: 0 <= k < |picked| ==> 1 <= picked[k] < i - 1 && result[k] == original[picked[k]]
      invariant forall k :: 0 < k < |picked| ==> picked[k - 1] < picked[k]
      invariant straight ==> result == [] && (lastDirection == 0 || lastDirection == d) && (majorDir == 0 || majorDir == d)
      decreases |original| - i
    {
      if i >= |original| {
        result, picked := result + [original[|original| - 1]], picked + [|original| - 1];
        break;
      }
      var previousPoint := original[i - 1];
      var direction := dirOf(original[i - 1], original[i]);
      var currentDeltaZ := AbsReal(original[i].2 - original[i - 1].2);
      var emit := true;
      if AbsReal(currentDeltaZ - previousDeltaZ) < 0.2 {
        emit := false;
        if lastDirection == 0 {
          primaryDir := direction;
        } else if secondaryDir == 0 && NavMeshUtil.IsDirectionAdjacent(lastDirection, direction) {
          secondaryDir := direction;
        } else if majorDir == 0 && lastDirection == direction {
          majorDir := direction;
        } else if direction == majorDir || (direction == primaryDir && lastDirection == secondaryDir)
                  || (direction == secondaryDir && lastDirection == primaryDir) {
        } else {
          emit := true;
        }
      }
      lastDirection := direction;
      previousDeltaZ := currentDeltaZ;
      if emit {
        result, picked := result + [previousPoint], picked + [i - 1];
        primaryDir, secondaryDir, majorDir := 0, 0, 0;
      }
      i := i + 1;
    }
  }

  /** p is the world point of some node of the walk. */
  ghost predicate OnWalk(m: Mesh, nodes: seq<NodeId>, p: Vec3)
    requires QueryReady(m)
  {
    exists j :: 0 <= j < |nodes| && p == WorldPointFromNode(m, nodes[j])
  }

  /**
   * The points before the exact end follow the walk in reverse: point k is the world
   * point of walked node idx[k], the indices fall strictly (from the start's side towards
   * the goal), and neither the goal (index 0) nor the walked node next to the start (the
   * last index) is kept.
   */
  ghost predicate KeptAlong(m: Mesh, nodes: seq<NodeId>, result: seq<Vec3>, idx: seq<nat>)
    requires QueryReady(m)
  {
    |idx| == |result| - 1
    && (forall k :: 0 <= k < |idx| ==>
          1 <= idx[k] && idx[k] + 1 < |nodes| && result[k] == WorldPointFromNode(m, nodes[idx[k]]))
    && (forall k :: 0 < k < |idx| ==> idx[k] < idx[k - 1])
  }

  /**
   * A walk back that findPath completed: goal first, every walked node recorded with a
   * predecessor that is not a "no node", each followed by that predecessor, the start met
   * only as the last predecessor, and the walk ending at the start or at a "no node".
   */
  ghost predicate WalkedBack(came: map<NodeId, NodeId>, start: NodeId, goal: NodeId, nodes: seq<NodeId>)
  {
    (nodes != [] ==> nodes[0] == goal)
    && (forall k :: 0 <= k < |nodes| ==> nodes[k] in came && came[nodes[k]].blockIndex >= 0)
    && (forall k :: 0 <= k < |nodes| - 1 ==> came[nodes[k]] == nodes[k + 1])
    && (forall k :: 1 <= k < |nodes| ==> nodes[k] != start)
    && var stop := if nodes == [] then goal else came[nodes[|nodes| - 1]];
       (nodes != [] && stop == start) || (stop in came && came[stop].blockIndex < 0)
  }

  /** n is one open step of the mesh away from c. */
  ghost predicate OneStep(m: Mesh, c: NodeId, n: NodeId)
    requires QueryReady(m)
  {
    exists d :: StepTo(m, c, n, d)
  }

  /** Each walked node is one open step of the mesh away from the next one, and the last from the start when the walk ends there. */
  ghost predicate Stepwise(m: Mesh, start: NodeId, came: map<NodeId, NodeId>, nodes: seq<NodeId>)
    requires QueryReady(m)
    requires forall k :: 0 <= k < |nodes| ==> nodes[k] in came
  {
    (forall k :: 0 <= k < |nodes| - 1 ==> OneStep(m, nodes[k + 1], nodes[k]))
    && (nodes != [] && came[nodes[|nodes| - 1]] == start ==> OneStep(m, start, nodes[|nodes| - 1]))
  }

  /** Over a finished search, a completed walk from a goal other than the start is a chain of mesh steps. */
  lemma WalkSteps(m: Mesh, start: NodeId, root: NodeId, came: map<NodeId, NodeId>, cost: map<NodeId, int>,
                  goal: NodeId, nodes: seq<NodeId>)
    requires QueryReady(m) && Search(m, start, root, came, cost)
    requires WalkedBack(came, start, goal, nodes) && goal != start
    ensures Stepwise(m, start, came, nodes)
  {
    forall k | 0 <= k < |nodes|
      ensures OneStep(m, came[nodes[k]], nodes[k])
    {
      assert nodes[k] in came && nodes[k] != start;
    }
  }

  /**
   * The walk indices of the points kept from the reversed walk: reversed index p is walk
   * index n - 1 - p.
   */
  lemma KeptInOrder(m: Mesh, nodes: seq<NodeId>, path: seq<Vec3>, reversed: seq<Vec3>, kept: seq<Vec3>,
                    picked: seq<nat>, exactEnd: Vec3)
    returns (idx: seq<nat>)
    requires QueryReady(m) && |path| == |nodes|
    requires forall k :: 0 <= k < |nodes| ==> path[k] == WorldPointFromNode(m, nodes[k])
    requires |reversed| == |path| && forall k :: 0 <= k < |path| ==> reversed[k] == path[|path| - 1 - k]
    requires |kept| <= |picked|
    requires forall k :: 0 <= k < |kept| ==> 1 <= picked[k] && picked[k] + 1 < |path| && kept[k] == reversed[picked[k]]
    requires forall k :: 0 < k < |kept| ==> picked[k - 1] < picked[k]
    ensures KeptAlong(m, nodes, kept + [exactEnd], idx)
  {
    idx := [];
    while |idx| < |kept|
      invariant |idx| <= |kept|
      invariant forall k :: 0 <= k < |idx| ==> idx[k] == |path| - 1 - picked[k]
      decreases |kept| - |idx|
    {
      idx := idx + [|path| - 1 - picked[|idx|]];
    }
    var result := kept + [exactEnd];
    forall k | 0 <= k < |idx|
      ensures 1 <= idx[k] && idx[k] + 1 < |nodes| && result[k] == WorldPointFromNode(m, nodes[idx[k]])
    {
      assert result[k] == kept[k] == reversed[picked[k]];
    }
  }

  /** Each kept point of the reduced, reversed walk is the world point of a walked node. */
  lemma KeptPointsOnWalk(m: Mesh, nodes: seq<NodeId>, path: seq<Vec3>, reversed: seq<Vec3>,
                         result: seq<Vec3>, picked: seq<nat>)
    requires QueryReady(m) && |path| == |nodes|
    requires forall k :: 0 <= k < |nodes| ==> path[k] == WorldPointFromNode(m, nodes[k])
    requires |reversed| == |path| && forall k :: 0 <= k < |path| ==> reversed[k] == path[|path| - 1 - k]
    requires |result| <= |picked|
    requires forall k :: 0 <= k < |result| ==> 0 <= picked[k] < |reversed| && result[k] == reversed[picked[k]]
    ensures forall k :: 0 <= k < |result| ==> OnWalk(m, nodes, result[k])
  {
    forall k | 0 <= k < |result|
      ensures OnWalk(m, nodes, result[k])
    {
      var j := |path| - 1 - picked[k];
      assert 0 <= j < |nodes| && result[k] == WorldPointFromNode(m, nodes[j]);
    }
  }

  /**
   * The end of findPath: reverse the gathered points, reduce them, and replace the last
   * point by `exactEnd`. The other points are gathered points in walk order reversed
   * (the ghost `idx` are their walk indices).
   */
  method FinishPath(m: Mesh, ghost nodes: seq<NodeId>, path: seq<Vec3>, dirOf: (Vec3, Vec3) -> NavMeshUtil.Flags,
                    exactEnd: Vec3)
    returns (result: seq<Vec3>, ghost idx: seq<nat>)
    requires QueryReady(m) && |path| == |nodes|
    requires forall k :: 0 <= k < |nodes| ==> path[k] == WorldPointFromNode(m, nodes[k])
    ensures result != [] && result[|result| - 1] == exactEnd
    ensures KeptAlong(m, nodes, result, idx)
    ensures forall k :: 0 <= k < |result| - 1 ==> OnWalk(m, nodes, result[k])
    ensures |path| < 3 ==> result == [exactEnd]
  {
    var reversed := Reverse(path);
    ghost var picked;
    result, picked := ReducePath(reversed, dirOf);
    if |result| > 0 {
      result := result[..|result| - 1];
    }
    assert |path| < 3 ==> result == [];
    KeptPointsOnWalk(m, nodes, path, reversed, result, picked);
    idx := KeptInOrder(m, nodes, path, reversed, result, picked, exactEnd);
    ghost var kept := result;
    result := result + [exactEnd];
    assert forall k :: 0 <= k < |result| - 1 ==> result[k] == kept[k];
  }

  /**
   * The walk back from the start when came_from holds the start alone: it stops at once
   * when the start's predecessor is a "no node", and reaches a missing key when the
   * predecessor is some other node.
   */
  lemma LoneStartWalk(graph: map<NodeId, NodeId>, start: NodeId, root: NodeId, nodes: seq<NodeId>, ok: bool)
    requires graph == map[start := root]
    requires nodes != [] ==> nodes[0] == start
    requires forall k :: 0 <= k < |nodes| ==> nodes[k] in graph && graph[nodes[k]].blockIndex >= 0
    requires forall k :: 1 <= k < |nodes| ==> nodes[k] != start
    requires ok ==> var stop := if nodes == [] then start else graph[nodes[|nodes| - 1]];
               (nodes != [] && stop == start) || (stop in graph && graph[stop].blockIndex < 0)
    requires !ok ==> (if nodes == [] then start else graph[nodes[|nodes| - 1]]) !in graph
    ensures root.blockIndex < 0 ==> ok && nodes == []
    ensures root != start && root.blockIndex >= 0 ==> !ok
  {
  }

  /**
   * findPath over AStarFrom: walk came_from back from the goal, reverse, reduce, and
   * replace the last point by `exactEnd`. The ghost outputs are the search's came_from and
   * costs, the walked nodes (goal first) and the walk indices of the kept points.
   */
  method FindPathFrom(m: Mesh, distance: (NavMeshUtil.Point, NavMeshUtil.Point) -> real,
                      dirOf: (Vec3, Vec3) -> NavMeshUtil.Flags, start: NodeId, root: NodeId, goal: NodeId,
                      exactEnd: Vec3)
    returns (r: Result<seq<Vec3>>, ghost nodes: seq<NodeId>, ghost idx: seq<nat>,
             ghost came: map<NodeId, NodeId>, ghost cost: map<NodeId, int>)
    requires QueryReady(m)
    ensures r.Ok? ==> r.value != [] && r.value[|r.value| - 1] == exactEnd
    ensures r.Ok? ==> Search(m, start, root, came, cost) && WalkedBack(came, start, goal, nodes)
    ensures r.Ok? ==> KeptAlong(m, nodes, r.value, idx)
    ensures r.Ok? && goal != start ==> Stepwise(m, start, came, nodes)
    ensures r.Ok? ==> forall k :: 0 <= k < |r.value| - 1 ==> OnWalk(m, nodes, r.value[k])
    ensures start == goal && root != start && root.blockIndex >= 0 ==> r == Err(KeyNotFound)
    ensures start == goal && root.blockIndex < 0 ==> r == Ok([exactEnd])
  {
    nodes, idx := [], [];
    var found;
    found, cost := AStarFrom(m, distance, start, root, goal);
    if found.Err? {
      return Err(found.error), nodes, idx, map[], cost;
    }
    came := found.value;
    r, nodes, idx := WalkPath(m, dirOf, found.value, cost, start, root, goal, exactEnd);
    if r.Ok? && goal != start {
      WalkSteps(m, start, root, came, cost, goal, nodes);
    }
  }

  /** The part of findPath after the search: the walk back from the goal and its reduction. */
  method WalkPath(m: Mesh, dirOf: (Vec3, Vec3) -> NavMeshUtil.Flags, graph: map<NodeId, NodeId>,
                  ghost cost: map<NodeId, int>, start: NodeId, ghost root: NodeId, goal: NodeId, exactEnd: Vec3)
    returns (r: Result<seq<Vec3>>, ghost nodes: seq<NodeId>, ghost idx: seq<nat>)
    requires QueryReady(m) && Costed(start, root, graph, cost)
    ensures r.Err? ==> r.error == KeyNotFound
    ensures r.Ok? ==> r.value != [] && r.value[|r.value| - 1] == exactEnd
    ensures r.Ok? ==> WalkedBack(graph, start, goal, nodes) && KeptAlong(m, nodes, r.value, idx)
    ensures r.Ok? ==> forall k :: 0 <= k < |r.value| - 1 ==> OnWalk(m, nodes, r.value[k])
    ensures start == goal && graph == map[start := root] && root != start && root.blockIndex >= 0 ==> r.Err?
    ensures start == goal && graph == map[start := root] && root.blockIndex < 0 ==> r == Ok([exactEnd])
  {
    var walked;
    idx := [];
    walked, nodes := Backtrack((n: NodeId) => WorldPointFromNode(m, n), graph, cost, start, root, goal);
    if start == goal && graph == map[start := root] {
      LoneStartWalk(graph, start, root, nodes, walked.Ok?);
    }
    if walked.Err? {
      return Err(walked.error), nodes, idx;
    }
    var result;
    result, idx := FinishPath(m, nodes, walked.value, dirOf, exactEnd);
    return Ok(result), nodes, idx;
  }

  /**
   * findPath as written. With start == goal the search records only the start, whose
   * predecessor default(NodeId) is not a "no node", so the walk steps to it and the
   * dictionary lookup throws unless the start is default(NodeId) itself.
   */
  method FindPath(m: Mesh, distance: (NavMeshUtil.Point, NavMeshUtil.Point) -> real,
                  dirOf: (Vec3, Vec3) -> NavMeshUtil.Flags, start: NodeId, goal: NodeId, exactEnd: Vec3)
    returns (r: Result<seq<Vec3>>, ghost nodes: seq<NodeId>, ghost idx: seq<nat>,
             ghost came: map<NodeId, NodeId>, ghost cost: map<NodeId, int>)
    requires QueryReady(m)
    ensures r.Ok? ==> r.value != [] && r.value[|r.value| - 1] == exactEnd
    ensures r.Ok? ==> Search(m, start, DefaultNode, came, cost) && WalkedBack(came, start, goal, nodes)
    ensures r.Ok? ==> KeptAlong(m, nodes, r.value, idx)
    ensures r.Ok? && goal != start ==> Stepwise(m, start, came, nodes)
    ensures r.Ok? ==> forall k :: 0 <= k < |r.value| - 1 ==> OnWalk(m, nodes, r.value[k])
    ensures start == goal && start != DefaultNode ==> r == Err(KeyNotFound)
  {
    r, nodes, idx, came, cost := FindPathFrom(m, distance, dirOf, start, DefaultNode, goal, exactEnd);
  }

  /**
   * findPath with the start's predecessor recorded as "no node" (block index -1), which
   * the walk already treats as its end: a path from a node to itself is the exact end.
   */
  method FindPathCorrected(m: Mesh, distance: (NavMeshUtil.Point, NavMeshUtil.Point) -> real,
                           dirOf: (Vec3, Vec3) -> NavMeshUtil.Flags, start: NodeId, goal: NodeId, exactEnd: Vec3)
    returns (r: Result<seq<Vec3>>, ghost nodes: seq<NodeId>, ghost idx: seq<nat>,
             ghost came: map<NodeId, NodeId>, ghost cost: map<NodeId, int>)
    requires QueryReady(m)
    ensures r.Ok? ==> r.value != [] && r.value[|r.value| - 1] == exactEnd
    ensures r.Ok? ==> Search(m, start, NoNode, came, cost) && WalkedBack(came, start, goal, nodes)
    ensures r.Ok? ==> KeptAlong(m, nodes, r.value, idx)
    ensures r.Ok? && goal != start ==> Stepwise(m, start, came, nodes)
    ensures r.Ok? ==> forall k :: 0 <= k < |r.value| - 1 ==> OnWalk(m, nodes, r.value[k])
    ensures start == goal ==> r == Ok([exactEnd])
  {
    r, nodes, idx, came, cost := FindPathFrom(m, distance, dirOf, start, NoNode, goal, exactEnd);
  }
}
