/// GeoSpace.cs: whole-world collision testing. Collision meshes, as vertex lists, are the
/// values of a BBTree; a ray collides when some triangle of some mesh whose box meets the ray's
/// box is hit close enough.
module GeoSpace {
  import opened Outcome
  import opened Geometry
  import opened BBTree

  /** A range longer than this is inserted triangle by triangle. */
  const SplitThreshold := 8000

  /** The leaf a mesh is inserted as: its vertices under BoundingBox.CreateFromPoints of them. */
  function MeshLeaf(p: seq<Vec3>): (n: Node<seq<Vec3>>)
    requires |p| > 0
    ensures n.Leaf? && n.value == p && WellFormed(n.box)
  {
    Leaf(Bounds(p), p)
  }

  predicate AllNonEmpty(ms: seq<seq<Vec3>>)
  {
    forall k :: 0 <= k < |ms| ==> |ms[k]| > 0
  }

  function MeshLeaves(ms: seq<seq<Vec3>>): (ns: seq<Node<seq<Vec3>>>)
    requires AllNonEmpty(ms)
    ensures |ns| == |ms|
  {
    seq(|ms|, k requires 0 <= k < |ms| => MeshLeaf(ms[k]))
  }

  lemma MeshLeavesAppend(a: seq<seq<Vec3>>, b: seq<seq<Vec3>>)
    requires AllNonEmpty(a) && AllNonEmpty(b)
    ensures AllNonEmpty(a + b) && MeshLeaves(a + b) == MeshLeaves(a) + MeshLeaves(b)
  {
    assert forall k :: 0 <= k < |a + b| ==> (a + b)[k] == if k < |a| then a[k] else b[k - |a|];
  }

  /** Inserting one more mesh extends the inserted leaves by its leaf. */
  lemma MeshLeavesSnoc(before: seq<Node<seq<Vec3>>>, done: seq<seq<Vec3>>, p: seq<Vec3>)
    requires AllNonEmpty(done) && |p| > 0
    ensures AllNonEmpty(done + [p])
    ensures (before + MeshLeaves(done)) + [MeshLeaf(p)] == before + MeshLeaves(done + [p])
  {
    MeshLeavesAppend(done, [p]);
    assert MeshLeaves([p]) == [MeshLeaf(p)];
  }

  /**
   * The loop over a long range from index i: one triangle of three consecutive vertices per
   * step, each read checked against the list (List<T>'s indexer throws out of range). The
   * triangles inserted before a failing read stay inserted.
   */
  function Triples(vs: seq<Vec3>, i: int, end: int): (r: (seq<seq<Vec3>>, Result<()>))
    ensures forall k :: 0 <= k < |r.0| ==> |r.0[k]| == 3
    decreases end - i
  {
    if i >= end then ([], Ok(()))
    else if i < 0 || i + 2 >= |vs| then ([], Err(ArgumentOutOfRange))
    else
      var rest := Triples(vs, i + 3, end);
      ([vs[i..i + 3]] + rest.0, rest.1)
  }

  /**
   * AddCollidableMeshToTree(list, start, count): the meshes it inserts, in order, and whether
   * it throws. Nothing for count 0; triangles for more than 8000 vertices; otherwise one mesh
   * of the copied range, or an exception for a negative count or a range outside the list.
   */
  function Added(vs: seq<Vec3>, start: int, count: int): (r: (seq<seq<Vec3>>, Result<()>))
    ensures AllNonEmpty(r.0)
  {
    var end := start + count;
    if start == end then ([], Ok(()))
    else if end - start > SplitThreshold then Triples(vs, start, end)
    else if end - start < 0 then ([], Err(Overflow))
    else if start < 0 || end > |vs| then ([], Err(ArgumentOutOfRange))
    else ([vs[start..end]], Ok(()))
  }

  /** A count of 0 inserts nothing and does not throw. */
  lemma AddedNothing(vs: seq<Vec3>, start: int)
    ensures Added(vs, start, 0) == ([], Ok(()))
  {
  }

  /** A short range inside the list becomes exactly one mesh: its vertices, copied in order. */
  lemma AddedOneMesh(vs: seq<Vec3>, start: int, count: int)
    requires 0 < count <= SplitThreshold && 0 <= start && start + count <= |vs|
    ensures Added(vs, start, count) == ([vs[start..start + count]], Ok(()))
  {
  }

  /** The triangles of a triangle list: vertices 3k, 3k + 1 and 3k + 2 of it. */
  function Triangles(vs: seq<Vec3>): (ts: seq<seq<Vec3>>)
    requires |vs| % 3 == 0
    ensures |ts| == |vs| / 3
    ensures forall k :: 0 <= k < |ts| ==> ts[k] == vs[3 * k..3 * k + 3]
  {
    seq(|vs| / 3, k requires 0 <= k < |vs| / 3 => vs[3 * k..3 * k + 3])
  }

  lemma {:induction false} TriplesSpan(vs: seq<Vec3>, i: int, end: int)
    requires 0 <= i <= end <= |vs| && (end - i) % 3 == 0
    ensures Triples(vs, i, end) == (Triangles(vs[i..end]), Ok(()))
    decreases end - i
  {
    if i < end {
      TriplesSpan(vs, i + 3, end);
      var ts := Triangles(vs[i..end]);
      var rest := Triangles(vs[i + 3..end]);
      assert ts == [vs[i..i + 3]] + rest by {
        forall k | 0 <= k < |ts| ensures ts[k] == ([vs[i..i + 3]] + rest)[k] {
          if k > 0 {
            ShiftedTriangle(vs, i, end, k);
          }
        }
      }
    } else {
      assert Triangles(vs[i..end]) == [];
    }
  }

  /** Triangle k of a range is triangle k - 1 of the range three vertices on. */
  lemma ShiftedTriangle(vs: seq<Vec3>, i: int, end: int, k: int)
    requires 0 <= i && i + 3 <= end <= |vs| && 0 < k && 3 * k + 3 <= end - i
    ensures vs[i..end][3 * k..3 * k + 3] == vs[i + 3..end][3 * (k - 1)..3 * (k - 1) + 3]
  {
    var a, b := vs[i..end][3 * k..3 * k + 3], vs[i + 3..end][3 * (k - 1)..3 * (k - 1) + 3];
    forall t | 0 <= t < 3 ensures a[t] == b[t] {
      assert a[t] == vs[i + 3 * k + t];
    }
  }

  /**
   * A long range that is a whole triangle list inside the list becomes one mesh per
   * triangle, in order, and nothing throws.
   */
  lemma AddedTriangles(vs: seq<Vec3>, start: int, count: int)
    requires count > SplitThreshold && count % 3 == 0 && 0 <= start && start + count <= |vs|
    ensures Added(vs, start, count) == (Triangles(vs[start..start + count]), Ok(()))
  {
    TriplesSpan(vs, start, start + count);
  }

  /**
   * A long range that is not a multiple of three has its last triangle read past the end of
   * the range: when the list goes on, that triangle takes the vertices that follow the range.
   */
  lemma {:induction false} TriplesOverrun(vs: seq<Vec3>, i: int, end: int)
    requires 0 <= i < end && (end - i) % 3 != 0 && end + 1 < |vs|
    ensures Triples(vs, i, end).1 == Ok(())
    ensures var ms := Triples(vs, i, end).0;
      |ms| > 0 && ms[|ms| - 1] == vs[end - (end - i) % 3..end - (end - i) % 3 + 3]
    decreases end - i
  {
    if i + 3 < end {
      TriplesOverrun(vs, i + 3, end);
    }
  }

  /** One step of the loop: the triangle at i moves from what is left to what is done. */
  lemma TriplesStep(vs: seq<Vec3>, start: int, i: int, end: int, done: seq<seq<Vec3>>)
    requires i < end && 0 <= i && i + 2 < |vs|
    requires Triples(vs, start, end).0 == done + Triples(vs, i, end).0
    requires Triples(vs, start, end).1 == Triples(vs, i, end).1
    ensures Triples(vs, start, end).0 == (done + [vs[i..i + 3]]) + Triples(vs, i + 3, end).0
    ensures Triples(vs, start, end).1 == Triples(vs, i + 3, end).1
  {
    var rest := Triples(vs, i + 3, end).0;
    assert Triples(vs, i, end).0 == [vs[i..i + 3]] + rest;
    assert done + ([vs[i..i + 3]] + rest) == (done + [vs[i..i + 3]]) + rest;
  }

  /** The list overload: one mesh holding the whole list, iff the list is non-empty. */
  function AddedList(triangles: seq<Vec3>): (ms: seq<seq<Vec3>>)
    ensures AllNonEmpty(ms)
    ensures |ms| == 1 <==> |triangles| > 0
    ensures |ms| == 0 <==> |triangles| == 0
    ensures |ms| == 1 ==> ms[0] == triangles
  {
    if |triangles| > 0 then [triangles] else []
  }

  /** Triangle t of the mesh (vertices 3t, 3t + 1, 3t + 2) exists and is hit. */
  predicate HitAt(ps: seq<Vec3>, t: nat, hit: (Vec3, Vec3, Vec3) -> bool)
  {
    3 * t + 2 < |ps| && hit(ps[3 * t], ps[3 * t + 1], ps[3 * t + 2])
  }

  predicate HasHit(ps: seq<Vec3>, hit: (Vec3, Vec3, Vec3) -> bool)
  {
    exists t: nat :: t < |ps| && HitAt(ps, t, hit)
  }

  /**
   * The visitor HasCollision passes, from triangle t on: `false` (stop) at the first triangle
   * hit, `true` (go on) past the last vertex, and the array's IndexOutOfRangeException for an
   * incomplete last triangle reached without a hit. `hit(a, b, c)` stands for
   * `ray.IntersectsTriangle(a, b, c) <= ray.Limit`.
   */
  function Scan(ps: seq<Vec3>, t: nat, hit: (Vec3, Vec3, Vec3) -> bool): Result<bool>
    decreases |ps| - 3 * t
  {
    if 3 * t >= |ps| then Ok(true)
    else if 3 * t + 2 >= |ps| then Err(IndexOutOfRange)
    else if hit(ps[3 * t], ps[3 * t + 1], ps[3 * t + 2]) then Ok(false)
    else Scan(ps, t + 1, hit)
  }

  function MeshVisit(hit: (Vec3, Vec3, Vec3) -> bool): seq<Vec3> -> Result<bool>
  {
    ps => Scan(ps, 0, hit)
  }

  lemma {:induction false} ScanFrom(ps: seq<Vec3>, t: nat, hit: (Vec3, Vec3, Vec3) -> bool)
    requires 3 * t <= |ps|
    ensures Scan(ps, t, hit) ==
      if exists u: nat :: t <= u && HitAt(ps, u, hit) then Ok(false)
      else if |ps| % 3 == 0 then Ok(true)
      else Err(IndexOutOfRange)
    decreases |ps| - 3 * t
  {
    if 3 * t + 2 < |ps| {
      ScanFrom(ps, t + 1, hit);
      if exists u: nat :: t <= u && HitAt(ps, u, hit) {
        if !hit(ps[3 * t], ps[3 * t + 1], ps[3 * t + 2]) {
          var u: nat :| t <= u && HitAt(ps, u, hit);
          assert t + 1 <= u;
        }
      }
      if hit(ps[3 * t], ps[3 * t + 1], ps[3 * t + 2]) {
        assert HitAt(ps, t, hit);
      }
    } else {
      assert forall u: nat :: t <= u ==> !HitAt(ps, u, hit);
    }
  }

  /**
   * The visitor stops exactly on a mesh with a triangle hit, goes on for a mesh of whole
   * triangles none of them hit, and throws for the rest.
   */
  lemma MeshVisitMeaning(ps: seq<Vec3>, hit: (Vec3, Vec3, Vec3) -> bool)
    ensures MeshVisit(hit)(ps) ==
      if HasHit(ps, hit) then Ok(false)
      else if |ps| % 3 == 0 then Ok(true)
      else Err(IndexOutOfRange)
  {
    ScanFrom(ps, 0, hit);
  }

  /** The visitor's loop: i from 0 in steps of three while below the length. */
  method ScanMesh(points: seq<Vec3>, hit: (Vec3, Vec3, Vec3) -> bool) returns (r: Result<bool>)
    ensures r == MeshVisit(hit)(points)
  {
    var i := 0;
    while i < |points|
      invariant 0 <= i && i % 3 == 0
      invariant Scan(points, 0, hit) == Scan(points, i / 3, hit)
      decreases |points| - i
    {
      if i + 2 >= |points| {
        return Err(IndexOutOfRange);
      }
      if hit(points[i], points[i + 1], points[i + 2]) {
        return Ok(false);
      }
      i := i + 3;
    }
    r := Ok(true);
  }

  /**
   * HasCollision with the tree's children: the exception of a visit, or whether the walk was
   * stopped, which happens exactly when a visit found a hit.
   */
  function Collision(cs: seq<Node<seq<Vec3>>>, rayBox: Box, hit: (Vec3, Vec3, Vec3) -> bool): Result<bool>
  {
    var w := Walk(cs, rayBox, MeshVisit(hit)).0;
    if w.Err? then Err(w.error) else Ok(!w.value)
  }

  /** Meshes the visitor went on past hold no triangle that is hit. */
  lemma ContinuedNoHit(s: seq<seq<Vec3>>, hit: (Vec3, Vec3, Vec3) -> bool)
    requires Continued(MeshVisit(hit), s)
    ensures forall i :: 0 <= i < |s| ==> !HasHit(s[i], hit)
  {
    forall i | 0 <= i < |s| ensures !HasHit(s[i], hit) {
      MeshVisitMeaning(s[i], hit);
    }
  }

  /** When HasCollision returns, it says whether some mesh the query reaches has a triangle hit. */
  lemma CollisionReached(cs: seq<Node<seq<Vec3>>>, rayBox: Box, hit: (Vec3, Vec3, Vec3) -> bool)
    ensures var r := Collision(cs, rayBox, hit);
      var reached := Reached(cs, rayBox);
      r.Ok? ==> (r.value <==> (exists i :: 0 <= i < |reached| && HasHit(reached[i], hit)))
  {
    var r := Collision(cs, rayBox, hit);
    if r == Ok(false) {
      NoCollision(cs, rayBox, hit);
    } else if r == Ok(true) {
      CollisionFirstHit(cs, rayBox, hit);
      var w := Walk(cs, rayBox, MeshVisit(hit)).1;
      assert Reached(cs, rayBox)[|w| - 1] == w[|w| - 1];
    }
  }

  /** No collision: no mesh the query reaches has a triangle hit. */
  lemma NoCollision(cs: seq<Node<seq<Vec3>>>, rayBox: Box, hit: (Vec3, Vec3, Vec3) -> bool)
    requires Collision(cs, rayBox, hit) == Ok(false)
    ensures var reached := Reached(cs, rayBox);
      forall i :: 0 <= i < |reached| ==> !HasHit(reached[i], hit)
  {
    var w := Walk(cs, rayBox, MeshVisit(hit));
    assert w.0 == Ok(true);
    ContinuedNoHit(w.1, hit);
  }

  /**
   * A collision ends the walk at the first mesh with a hit: the meshes visited are the first
   * ones the query reaches, the last of them has a hit and none before it has.
   */
  lemma CollisionFirstHit(cs: seq<Node<seq<Vec3>>>, rayBox: Box, hit: (Vec3, Vec3, Vec3) -> bool)
    requires Collision(cs, rayBox, hit) == Ok(true)
    ensures var w := Walk(cs, rayBox, MeshVisit(hit)).1;
      w <= Reached(cs, rayBox) && |w| > 0 && HasHit(w[|w| - 1], hit) &&
      forall i :: 0 <= i < |w| - 1 ==> !HasHit(w[i], hit)
  {
    WalkStopped(cs, rayBox, MeshVisit(hit));
    StoppedMeans(Walk(cs, rayBox, MeshVisit(hit)).1, hit);
  }

  /** A walk whose visitor said stop: what it visited stopped at its last value. */
  lemma WalkStopped<T>(cs: seq<Node<T>>, test: Box, visit: T -> Result<bool>)
    requires var r := Walk(cs, test, visit).0; r.Ok? && !r.value
    ensures Stopped(visit, Walk(cs, test, visit).1, Ok(false))
  {
  }

  /** A visit sequence that stopped on its last mesh: that one has a hit and none before it. */
  lemma StoppedMeans(s: seq<seq<Vec3>>, hit: (Vec3, Vec3, Vec3) -> bool)
    requires Stopped(MeshVisit(hit), s, Ok(false))
    ensures HasHit(s[|s| - 1], hit)
    ensures forall i :: 0 <= i < |s| - 1 ==> !HasHit(s[i], hit)
  {
    var n := |s| - 1;
    var front := s[..n];
    ContinuedNoHit(front, hit);
    MeshVisitMeaning(s[n], hit);
    assert forall i :: 0 <= i < n ==> front[i] == s[i];
  }

  /**
   * In a sound tree the meshes the query reaches are the inserted ones whose box meets the
   * ray's box: HasCollision, when it returns, says whether one of those has a triangle hit.
   */
  lemma CollisionOfEntries(box: Box, cs: seq<Node<seq<Vec3>>>, entries: seq<Node<seq<Vec3>>>,
                           rayBox: Box, hit: (Vec3, Vec3, Vec3) -> bool)
    requires Sound(box, cs, entries)
    ensures var r := Collision(cs, rayBox, hit);
      r.Ok? ==> (r.value <==> (exists k :: 0 <= k < |entries| && entries[k].Leaf? &&
                                Intersects(entries[k].box, rayBox) && HasHit(entries[k].value, hit)))
  {
    CollisionReached(cs, rayBox, hit);
    ReachedMeeting(cs, box, rayBox);
    MetHitIsEntry(Leaves(cs), entries, rayBox, hit);
    EntryHitIsMet(Leaves(cs), entries, rayBox, hit);
  }

  /** A met value with a hit is the value of an entry whose box meets the test box. */
  lemma MetHitIsEntry(ls: seq<Node<seq<Vec3>>>, entries: seq<Node<seq<Vec3>>>, test: Box,
                      hit: (Vec3, Vec3, Vec3) -> bool)
    requires multiset(ls) == multiset(entries)
    ensures var met := Meeting(ls, test);
      (exists i :: 0 <= i < |met| && HasHit(met[i], hit)) ==>
      (exists k :: 0 <= k < |entries| && entries[k].Leaf? &&
                   Intersects(entries[k].box, test) && HasHit(entries[k].value, hit))
  {
    var met := Meeting(ls, test);
    if exists i :: 0 <= i < |met| && HasHit(met[i], hit) {
      var i :| 0 <= i < |met| && HasHit(met[i], hit);
      MeetingMembers(ls, test, met[i]);
      var j :| 0 <= j < |ls| && ls[j].Leaf? && Intersects(ls[j].box, test) && ls[j].value == met[i];
      assert ls[j] in multiset(entries);
      var k :| 0 <= k < |entries| && entries[k] == ls[j];
    }
  }

  /** An entry with a hit whose box meets the test box gives a met value with a hit. */
  lemma EntryHitIsMet(ls: seq<Node<seq<Vec3>>>, entries: seq<Node<seq<Vec3>>>, test: Box,
                      hit: (Vec3, Vec3, Vec3) -> bool)
    requires multiset(ls) == multiset(entries)
    ensures var met := Meeting(ls, test);
      (exists k :: 0 <= k < |entries| && entries[k].Leaf? &&
                   Intersects(entries[k].box, test) && HasHit(entries[k].value, hit)) ==>
      (exists i :: 0 <= i < |met| && HasHit(met[i], hit))
  {
    var met := Meeting(ls, test);
    if exists k :: 0 <= k < |entries| && entries[k].Leaf? &&
                   Intersects(entries[k].box, test) && HasHit(entries[k].value, hit) {
      var k :| 0 <= k < |entries| && entries[k].Leaf? &&
               Intersects(entries[k].box, test) && HasHit(entries[k].value, hit);
      assert entries[k] in multiset(ls);
      var j :| 0 <= j < |ls| && ls[j] == entries[k];
      MeetingMembers(ls, test, entries[k].value);
      var i :| 0 <= i < |met| && met[i] == entries[k].value;
    }
  }

  /**
   * The copy of a short range into a new array: vertex start + k at index k, or the list's
   * exception for an index outside it.
   */
  method CopyRange(collisionVertices: seq<Vec3>, collisionStart: int, collisionEnd: int)
    returns (r: Result<seq<Vec3>>)
    requires collisionStart < collisionEnd
    ensures r.Ok? <==> 0 <= collisionStart && collisionEnd <= |collisionVertices|
    ensures r.Ok? ==> r.value == collisionVertices[collisionStart..collisionEnd]
    ensures r.Err? ==> r.error == ArgumentOutOfRange
  {
    var points := new Vec3[collisionEnd - collisionStart];
    var i, dst := collisionStart, 0;
    while i < collisionEnd
      invariant dst == i - collisionStart && 0 <= dst <= points.Length
      invariant dst > 0 ==>
        0 <= collisionStart && i <= |collisionVertices| && points[..dst] == collisionVertices[collisionStart..i]
    {
      if i < 0 || i >= |collisionVertices| {
        return Err(ArgumentOutOfRange);
      }
      points[dst] := collisionVertices[i];
      i, dst := i + 1, dst + 1;
    }
    assert points[..] == points[..dst];
    return Ok(points[..]);
  }

  class GeoSpace {
    /** m_collisionMeshTree. */
    const tree: Tree<seq<Vec3>>

    /** The tree is sound and holds only meshes under their own bounds. */
    ghost predicate Valid()
      reads this, tree
    {
      tree.Valid() &&
      forall k :: 0 <= k < |tree.entries| ==>
        tree.entries[k].Leaf? && |tree.entries[k].value| > 0 &&
        tree.entries[k] == MeshLeaf(tree.entries[k].value)
    }

    constructor ()
      ensures Valid() && fresh(tree) && tree.entries == []
    {
      tree := new Tree();
    }

    /** Inserts one mesh under its bounds. */
    method InsertMesh(points: seq<Vec3>)
      requires |points| > 0 && Valid()
      modifies tree
      ensures Valid()
      ensures tree.entries == old(tree.entries) + [MeshLeaf(points)]
    {
      tree.Insert(Bounds(points), points);
    }

    /**
     * AddCollidableMeshToTree(collisionVertices, collisionStart, count): the meshes of Added
     * are inserted, in order, and the exception it names is the result.
     */
    method AddCollidableMeshToTree(collisionVertices: seq<Vec3>, collisionStart: int, count: int)
      returns (r: Result<()>)
      requires Valid()
      modifies tree
      ensures Valid()
      ensures r == Added(collisionVertices, collisionStart, count).1
      ensures tree.entries == old(tree.entries) + MeshLeaves(Added(collisionVertices, collisionStart, count).0)
    {
      var collisionEnd := collisionStart + count;
      r := Ok(());
      if collisionStart == collisionEnd {
        assert MeshLeaves([]) == [];
        assert tree.entries + [] == tree.entries;
        return;
      }
      if collisionEnd - collisionStart > SplitThreshold {
        r := AddTriangles(collisionVertices, collisionStart, collisionEnd);
        return;
      }
      if collisionEnd - collisionStart < 0 {
        r := Err(Overflow);
        assert tree.entries + MeshLeaves([]) == tree.entries;
        return;
      }
      var points := CopyRange(collisionVertices, collisionStart, collisionEnd);
      if points.Err? {
        r := Err(points.error);
        assert tree.entries + MeshLeaves([]) == tree.entries;
        return;
      }
      InsertMesh(points.value);
    }

    /** The loop over a long range: a mesh per three vertices, until a read fails. */
    method AddTriangles(collisionVertices: seq<Vec3>, collisionStart: int, collisionEnd: int)
      returns (r: Result<()>)
      requires Valid()
      modifies tree
      ensures Valid()
      ensures r == Triples(collisionVertices, collisionStart, collisionEnd).1
      ensures tree.entries == old(tree.entries) + MeshLeaves(Triples(collisionVertices, collisionStart, collisionEnd).0)
    {
      var i := collisionStart;
      ghost var done: seq<seq<Vec3>> := [];
      assert done + Triples(collisionVertices, i, collisionEnd).0 == Triples(collisionVertices, i, collisionEnd).0;
      while i < collisionEnd
        invariant Valid()
        invariant AllNonEmpty(done)
        invariant Triples(collisionVertices, collisionStart, collisionEnd).0 ==
          done + Triples(collisionVertices, i, collisionEnd).0
        invariant Triples(collisionVertices, collisionStart, collisionEnd).1 ==
          Triples(collisionVertices, i, collisionEnd).1
        invariant tree.entries == old(tree.entries) + MeshLeaves(done)
        decreases collisionEnd - i
      {
        if i < 0 || i + 2 >= |collisionVertices| {
          assert done + [] == done;
          return Err(ArgumentOutOfRange);
        }
        // points[0..2] = collisionVertices[i++], three times
        var points := collisionVertices[i..i + 3];
        TriplesStep(collisionVertices, collisionStart, i, collisionEnd, done);
        i := i + 3;
        MeshLeavesSnoc(old(tree.entries), done, points);
        InsertMesh(points);
        done := done + [points];
      }
      assert done + [] == done;
      r := Ok(());
    }

    /** AddCollidableMeshToTree(List<Vector3> triangles): the whole list as one mesh, if any. */
    method AddCollidableTriangles(triangles: seq<Vec3>)
      requires Valid()
      modifies tree
      ensures Valid()
      ensures tree.entries == old(tree.entries) + MeshLeaves(AddedList(triangles))
    {
      if |triangles| > 0 {
        InsertMesh(triangles);
      }
    }

    /**
     * HasCollision(ray), for the ray's bounding box and its hit test: whether some reached
     * mesh has a triangle the ray meets within its limit, or the exception of a mesh whose
     * length is not a multiple of three.
     */
    method HasCollision(rayBox: Box, hit: (Vec3, Vec3, Vec3) -> bool) returns (r: Result<bool>)
      ensures r == Collision(tree.children, rayBox, hit)
      ensures Valid() && r.Ok? ==>
        (r.value <==> (exists k :: 0 <= k < |tree.entries| && tree.entries[k].Leaf? &&
                         Intersects(tree.entries[k].box, rayBox) && HasHit(tree.entries[k].value, hit)))
    {
      var w := tree.DoActionOnIntersectingMeshes(rayBox, MeshVisit(hit));
      if w.Err? {
        r := Err(w.error);
      } else {
        var hasCollision := !w.value;
        r := Ok(hasCollision);
      }
      if Valid() {
        CollisionOfEntries(tree.box, tree.children, tree.entries, rayBox, hit);
      }
    }

    /** DoActionOnIntersectingMeshes: the tree's query. */
    method DoActionOnIntersectingMeshes(test: Box, func: seq<Vec3> -> Result<bool>) returns (r: Result<bool>)
      ensures r == Walk(tree.children, test, func).0
    {
      r := tree.DoActionOnIntersectingMeshes(test, func);
    }

    method BuildTree()
      requires Valid()
      modifies tree
      ensures Valid()
      ensures tree.entries == old(tree.entries) && tree.box == old(tree.box)
      ensures Inner(tree.box, tree.children) == Split(Inner(old(tree.box), old(tree.children)))
    {
      tree.BuildTree();
    }

    /** Validate: with every mesh under its own bounds, the tree check never throws. */
    method Validate() returns (r: Result<()>)
      ensures r == Checked(tree.children, tree.box)
      ensures Valid() ==> r.Ok?
    {
      r := tree.Validate();
    }

    /** GetBoundingBox: the merge of the bounds of every inserted mesh. */
    function GetBoundingBox(): (b: Box)
      reads this, tree
      ensures Valid() ==> b == Span(tree.entries)
    {
      tree.GetBoundingBox()
    }
  }
}
