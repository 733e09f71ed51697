/// BBTree.cs: a bounding-volume hierarchy. Values are inserted as leaves under the root;
/// BuildTree then splits every node of four or more children in two along the longest axis of
/// its box, recursively. Queries walk the subtrees whose boxes meet a test box.
module BBTree {
  import opened Outcome
  import opened Geometry
  import Util

  /** The message Validate throws for a child box that is not inside its parent's. */
  const NotContained := "child bbox not contained!"

  /** TARGET_LEAF_SIZE: Split leaves nodes with fewer children alone. */
  const TargetLeafSize := 4

  /**
   * BBNode as a value. A leaf (m_children null) carries a value; a node made by `new BBNode()`
   * carries a child list and the default value. Nodes are owned by exactly one parent, so the
   * C# objects are modelled by the values they hold.
   */
  datatype Node<T> = Leaf(box: Box, value: T) | Inner(box: Box, children: seq<Node<T>>)

  /** The root of a new tree: no children and the default box. */
  function EmptyRoot<T>(): Node<T>
  {
    Inner(ZeroBox, [])
  }

  function Boxes<T>(cs: seq<Node<T>>): (bs: seq<Box>)
    ensures |bs| == |cs|
    ensures forall i :: 0 <= i < |cs| ==> bs[i] == cs[i].box
  {
    seq(|cs|, i requires 0 <= i < |cs| => cs[i].box)
  }

  /** The boxes merged from left to right: a box holding all of them. */
  function Hull(bs: seq<Box>): (r: Box)
    requires |bs| > 0
    ensures forall i :: 0 <= i < |bs| ==> Within(bs[i], r)
    decreases |bs|
  {
    if |bs| == 1 then bs[0]
    else
      assert forall i :: 0 <= i < |bs| - 1 ==> bs[..|bs| - 1][i] == bs[i];
      Merge(Hull(bs[..|bs| - 1]), bs[|bs| - 1])
  }

  /** The hull is the least box holding all the boxes. */
  lemma {:induction false} HullLeast(bs: seq<Box>, c: Box)
    requires |bs| > 0
    requires forall i :: 0 <= i < |bs| ==> Within(bs[i], c)
    ensures Within(Hull(bs), c)
    decreases |bs|
  {
    if |bs| > 1 {
      var front := bs[..|bs| - 1];
      assert forall i :: 0 <= i < |front| ==> front[i] == bs[i];
      HullLeast(front, c);
      MergeLeast(Hull(front), bs[|bs| - 1], c);
    }
  }

  /** The hull of the boxes after one more is the merge of that box into the old hull. */
  lemma HullSnoc(bs: seq<Box>, b: Box)
    requires |bs| > 0
    ensures Hull(bs + [b]) == Merge(b, Hull(bs))
  {
    assert (bs + [b])[..|bs|] == bs;
  }

  /** The box of the leaves inserted so far: the default box for none, their hull otherwise. */
  function Span<T>(entries: seq<Node<T>>): Box
  {
    if |entries| == 0 then ZeroBox else Hull(Boxes(entries))
  }

  datatype Axis = X | Y | Z

  /** The axis Split sorts on: the longest extent of the box, ties going to X, then to Y. */
  function LongestAxis(b: Box): (a: Axis)
    ensures var dx, dy, dz := b.max.x - b.min.x, b.max.y - b.min.y, b.max.z - b.min.z;
      (a == X <==> dx >= dy && dx >= dz) &&
      (a == Y ==> dy > dx && dy >= dz) &&
      (a == Z ==> dz > dx && dz > dy)
  {
    var dimx := b.max.x - b.min.x;
    var dimy := b.max.y - b.min.y;
    var dimz := b.max.z - b.min.z;
    if dimx >= dimy && dimx >= dimz then X
    else if dimy >= dimz then Y
    else Z
  }

  /** The coordinate of a node's box centre on the axis. */
  function Key<T>(a: Axis, c: Node<T>): real
  {
    var m := Util.Center(c.box);
    match a
    case X => m.x
    case Y => m.y
    case Z => m.z
  }

  predicate Sorted<T>(s: seq<Node<T>>, a: Axis)
  {
    forall i, j :: 0 <= i < j < |s| ==> Key(a, s[i]) <= Key(a, s[j])
  }

  /** x placed after every element of s whose key is not above its own. */
  function InsertByKey<T>(x: Node<T>, s: seq<Node<T>>, a: Axis): (r: seq<Node<T>>)
    ensures |r| == |s| + 1
    decreases s
  {
    if s == [] then [x]
    else if Key(a, s[0]) <= Key(a, x) then [s[0]] + InsertByKey(x, s[1..], a)
    else [x] + s
  }

  lemma {:induction false} InsertByKeyPermutes<T>(x: Node<T>, s: seq<Node<T>>, a: Axis)
    ensures multiset(InsertByKey(x, s, a)) == multiset(s) + multiset{x}
    decreases s
  {
    if s != [] && Key(a, s[0]) <= Key(a, x) {
      InsertByKeyPermutes(x, s[1..], a);
      assert s == [s[0]] + s[1..];
    }
  }

  lemma {:induction false} InsertByKeySorted<T>(x: Node<T>, s: seq<Node<T>>, a: Axis)
    requires Sorted(s, a)
    ensures Sorted(InsertByKey(x, s, a), a)
    decreases s
  {
    if s != [] {
      var r := InsertByKey(x, s, a);
      if Key(a, s[0]) <= Key(a, x) {
        var rest := InsertByKey(x, s[1..], a);
        InsertByKeySorted(x, s[1..], a);
        InsertByKeyPermutes(x, s[1..], a);
        forall k | 0 <= k < |rest| ensures Key(a, s[0]) <= Key(a, rest[k]) {
          assert rest[k] in multiset(s[1..]) + multiset{x};
          if rest[k] != x {
            var j :| 0 <= j < |s[1..]| && s[1..][j] == rest[k];
            assert s[1..][j] == s[j + 1];
          }
        }
        assert r == [s[0]] + rest;
      } else {
        assert r == [x] + s;
      }
    }
  }

  /**
   * Enumerable.OrderBy on the centre coordinate: a stable sort, here by insertion, of the
   * children from the first to the last.
   */
  function SortBy<T>(cs: seq<Node<T>>, a: Axis): (r: seq<Node<T>>)
    ensures |r| == |cs|
    decreases |cs|
  {
    if cs == [] then []
    else InsertByKey(cs[|cs| - 1], SortBy(cs[..|cs| - 1], a), a)
  }

  /** The sorted children are a permutation of the children, in non-decreasing key order. */
  lemma {:induction false} SortByOrders<T>(cs: seq<Node<T>>, a: Axis)
    ensures multiset(SortBy(cs, a)) == multiset(cs)
    ensures Sorted(SortBy(cs, a), a)
    decreases |cs|
  {
    if cs != [] {
      var front := cs[..|cs| - 1];
      SortByOrders(front, a);
      InsertByKeyPermutes(cs[|cs| - 1], SortBy(front, a), a);
      InsertByKeySorted(cs[|cs| - 1], SortBy(front, a), a);
      assert cs == front + [cs[|cs| - 1]];
    }
  }

  /** A new BBNode holding the children, with the box UpdateBBox gives it. */
  function Group<T>(cs: seq<Node<T>>): (n: Node<T>)
  {
    Inner(if |cs| == 0 then ZeroBox else Hull(Boxes(cs)), cs)
  }

  /**
   * BBNode.Split: a leaf or a node with fewer than four children is kept; otherwise the
   * children, sorted by centre on the longest axis of the node's box, go half to a left and
   * the rest to a right group, which are split in turn and become the node's only children.
   */
  function Split<T>(n: Node<T>): (r: Node<T>)
    ensures r.box == n.box && r.Leaf? == n.Leaf?
    ensures n.Leaf? || |n.children| < TargetLeafSize ==> r == n
    ensures n.Inner? && |n.children| >= TargetLeafSize ==> |r.children| == 2
    ensures n.Inner? && |n.children| > 0 ==> |r.children| > 0
    decreases if n.Leaf? then 0 else |n.children|
  {
    if n.Leaf? || |n.children| < TargetLeafSize then n
    else
      var sorted := SortBy(n.children, LongestAxis(n.box));
      var mid := |n.children| / 2;
      Inner(n.box, [Split(Group(sorted[..mid])), Split(Group(sorted[mid..]))])
  }

  /** The leaves below the nodes, depth first. */
  function Leaves<T>(cs: seq<Node<T>>): seq<Node<T>>
    decreases cs
  {
    if cs == [] then []
    else (if cs[0].Leaf? then [cs[0]] else Leaves(cs[0].children)) + Leaves(cs[1..])
  }

  lemma {:induction false} LeavesAppend<T>(a: seq<Node<T>>, b: seq<Node<T>>)
    ensures Leaves(a + b) == Leaves(a) + Leaves(b)
    decreases |a|
  {
    if a != [] {
      assert (a + b)[0] == a[0] && (a + b)[1..] == a[1..] + b;
      LeavesAppend(a[1..], b);
      var h := if a[0].Leaf? then [a[0]] else Leaves(a[0].children);
      assert Leaves(a) == h + Leaves(a[1..]);
      assert Leaves(a + b) == h + Leaves(a[1..] + b);
    } else {
      assert a + b == b;
    }
  }

  /** Taking the same element out of two permutations leaves permutations. */
  lemma RemoveOne<X>(a: seq<X>, b: seq<X>, j: nat)
    requires |a| > 0 && j < |b| && b[j] == a[0]
    requires multiset(a) == multiset(b)
    ensures multiset(a[1..]) == multiset(b[..j] + b[j + 1..])
  {
    var x := a[0];
    assert a == [x] + a[1..];
    assert b == b[..j] + [x] + b[j + 1..];
    calc {
      multiset(a[1..]);
      multiset(a) - multiset{x};
      multiset(b) - multiset{x};
      multiset(b[..j]) + multiset(b[j + 1..]);
      multiset(b[..j] + b[j + 1..]);
    }
  }

  /** The multiset of leaves depends only on the multiset of nodes. */
  lemma {:induction false} LeavesPermuted<T>(a: seq<Node<T>>, b: seq<Node<T>>)
    requires multiset(a) == multiset(b)
    ensures multiset(Leaves(a)) == multiset(Leaves(b))
    decreases |a|
  {
    if a == [] {
      assert |multiset(b)| == 0;
    } else {
      var x := a[0];
      assert x in multiset(b);
      var j :| 0 <= j < |b| && b[j] == x;
      var b' := b[..j] + b[j + 1..];
      assert b == b[..j] + ([x] + b[j + 1..]);
      assert a == [x] + a[1..];
      RemoveOne(a, b, j);
      LeavesPermuted(a[1..], b');
      LeavesAppend([x], a[1..]);
      LeavesAppend(b[..j], [x] + b[j + 1..]);
      LeavesAppend([x], b[j + 1..]);
      LeavesAppend(b[..j], b[j + 1..]);
    }
  }

  /** Sorting the children keeps the multiset of leaves below them. */
  lemma LeavesSort<T>(cs: seq<Node<T>>, a: Axis)
    ensures multiset(Leaves(SortBy(cs, a))) == multiset(Leaves(cs))
  {
    SortByOrders(cs, a);
    LeavesPermuted(SortBy(cs, a), cs);
  }

  /**
   * The shape BuildTree keeps: every node's box lies within its parent's, and every node with a
   * child list below the root has at least one child.
   */
  predicate Nested<T>(cs: seq<Node<T>>, outer: Box)
    decreases cs
  {
    forall i :: 0 <= i < |cs| ==>
      Within(cs[i].box, outer) &&
      (cs[i].Inner? ==> |cs[i].children| > 0 && Nested(cs[i].children, cs[i].box))
  }

  /** Nodes grouped under a new node are nested in it. */
  lemma GroupNested<T>(cs: seq<Node<T>>, outer: Box)
    requires |cs| > 0 && Nested(cs, outer)
    ensures Nested(Group(cs).children, Group(cs).box)
    ensures Within(Group(cs).box, outer)
  {
    var bs := Boxes(cs);
    HullLeast(bs, outer);
  }

  lemma LeavesOne<T>(x: Node<T>)
    ensures Leaves([x]) == if x.Leaf? then [x] else Leaves(x.children)
  {
    assert [x][1..] == [];
  }

  /** Nesting depends only on which nodes the list holds. */
  lemma NestedPermuted<T>(a: seq<Node<T>>, b: seq<Node<T>>, outer: Box)
    requires Nested(a, outer) && multiset(a) == multiset(b)
    ensures Nested(b, outer)
  {
    forall i | 0 <= i < |b|
      ensures Within(b[i].box, outer)
      ensures b[i].Inner? ==> |b[i].children| > 0 && Nested(b[i].children, b[i].box)
    {
      assert b[i] in multiset(a);
      var j :| 0 <= j < |a| && a[j] == b[i];
    }
  }

  /** The children Split deals to its left group. */
  function LeftHalf<T>(n: Node<T>): seq<Node<T>>
    requires n.Inner?
  {
    SortBy(n.children, LongestAxis(n.box))[..|n.children| / 2]
  }

  /** The children Split deals to its right group. */
  function RightHalf<T>(n: Node<T>): seq<Node<T>>
    requires n.Inner?
  {
    SortBy(n.children, LongestAxis(n.box))[|n.children| / 2..]
  }

  lemma SplitUnfold<T>(n: Node<T>)
    requires n.Inner? && |n.children| >= TargetLeafSize
    ensures Split(n).children == [Split(Group(LeftHalf(n)))] + [Split(Group(RightHalf(n)))]
    ensures |LeftHalf(n)| < |n.children| && |RightHalf(n)| < |n.children|
  {
  }

  /** The two halves hold the leaves of the children between them. */
  lemma HalvesLeaves<T>(n: Node<T>)
    requires n.Inner?
    ensures multiset(Leaves(LeftHalf(n))) + multiset(Leaves(RightHalf(n))) == multiset(Leaves(n.children))
  {
    HalvesJoin(n);
    LeavesAppend(LeftHalf(n), RightHalf(n));
    LeavesSort(n.children, LongestAxis(n.box));
  }

  /** The two halves, one after the other, are the sorted children. */
  lemma HalvesJoin<T>(n: Node<T>)
    requires n.Inner?
    ensures LeftHalf(n) + RightHalf(n) == SortBy(n.children, LongestAxis(n.box))
  {
  }

  /** Split keeps the multiset of leaves below the node. */
  lemma {:induction false} SplitLeaves<T>(n: Node<T>)
    ensures multiset(Leaves([Split(n)])) == multiset(Leaves([n]))
    decreases if n.Leaf? then 0 else |n.children|
  {
    if n.Inner? && |n.children| >= TargetLeafSize {
      SplitUnfold(n);
      var left, right := Group(LeftHalf(n)), Group(RightHalf(n));
      SplitLeaves(left);
      SplitLeaves(right);
      LeavesOne(Split(n));
      LeavesAppend([Split(left)], [Split(right)]);
      LeavesOne(left);
      LeavesOne(right);
      HalvesLeaves(n);
      LeavesOne(n);
    }
  }

  /**
   * A nested node stays nested when split: each new group's box is the hull of its children
   * and lies within the node's box.
   */
  lemma {:induction false} SplitNested<T>(n: Node<T>)
    requires n.Inner? && Nested(n.children, n.box)
    ensures Nested(Split(n).children, n.box)
    decreases |n.children|
  {
    if |n.children| >= TargetLeafSize {
      SplitUnfold(n);
      HalvesNested(n);
      var g1, g2 := Group(LeftHalf(n)), Group(RightHalf(n));
      GroupNested(LeftHalf(n), n.box);
      GroupNested(RightHalf(n), n.box);
      SplitNested(g1);
      SplitNested(g2);
      NestedPair(Split(g1), Split(g2), n.box);
    }
  }

  /** Both halves of a nested node's sorted children are non-empty and nested in its box. */
  lemma HalvesNested<T>(n: Node<T>)
    requires n.Inner? && Nested(n.children, n.box) && |n.children| >= TargetLeafSize
    ensures |LeftHalf(n)| > 0 && Nested(LeftHalf(n), n.box)
    ensures |RightHalf(n)| > 0 && Nested(RightHalf(n), n.box)
  {
    var sorted := SortBy(n.children, LongestAxis(n.box));
    SortByOrders(n.children, LongestAxis(n.box));
    NestedPermuted(n.children, sorted, n.box);
    NestedSlice(sorted, n.box, 0, |n.children| / 2);
    NestedSlice(sorted, n.box, |n.children| / 2, |n.children|);
  }

  /** A slice of a nested list is nested. */
  lemma NestedSlice<T>(cs: seq<Node<T>>, outer: Box, i: nat, j: nat)
    requires i <= j <= |cs| && Nested(cs, outer)
    ensures Nested(cs[i..j], outer)
  {
    forall k | 0 <= k < j - i
      ensures Within(cs[i..j][k].box, outer)
      ensures cs[i..j][k].Inner? ==> |cs[i..j][k].children| > 0 && Nested(cs[i..j][k].children, cs[i..j][k].box)
    {
      assert cs[i..j][k] == cs[i + k];
    }
  }

  /** Two nodes, each within the box and nested below itself, form a nested list. */
  lemma NestedPair<T>(a: Node<T>, b: Node<T>, outer: Box)
    requires Within(a.box, outer) && (a.Inner? ==> |a.children| > 0 && Nested(a.children, a.box))
    requires Within(b.box, outer) && (b.Inner? ==> |b.children| > 0 && Nested(b.children, b.box))
    ensures Nested([a] + [b], outer)
  {
    var cs := [a] + [b];
    assert cs[0] == a && cs[1] == b;
  }

  /** Split keeps the node's box and leaves, and keeps a nested node nested. */
  lemma SplitSound<T>(n: Node<T>)
    requires n.Inner? ==> Nested(n.children, n.box)
    ensures Split(n).Inner? ==> Nested(Split(n).children, n.box)
    ensures multiset(Leaves([Split(n)])) == multiset(Leaves([n]))
  {
    SplitLeaves(n);
    if n.Inner? {
      SplitNested(n);
    }
  }

  /** A nested list with children has leaves. */
  lemma {:induction false} NestedHasLeaves<T>(cs: seq<Node<T>>, outer: Box)
    requires |cs| > 0 && Nested(cs, outer)
    ensures |Leaves(cs)| > 0
    decreases cs
  {
    if cs[0].Inner? {
      NestedHasLeaves(cs[0].children, cs[0].box);
    }
  }

  /**
   * BBNode.Validate on the children of a node with box `outer`: each child in turn must have
   * a well-formed box that `outer` contains, and a child with children is validated before
   * its next sibling. `Ok` means Validate returned without throwing.
   */
  function Checked<T>(cs: seq<Node<T>>, outer: Box): Result<()>
    decreases cs
  {
    if cs == [] then Ok(())
    else if !WellFormed(cs[0].box) then Err(InvalidOperation)
    else if ContainsBox(outer, cs[0].box) != Contains then Err(NotContained)
    else if cs[0].Inner? && Checked(cs[0].children, cs[0].box).Err? then Checked(cs[0].children, cs[0].box)
    else Checked(cs[1..], outer)
  }

  /** Every box below is well-formed and lies within its parent's. */
  predicate Contained<T>(cs: seq<Node<T>>, outer: Box)
    decreases cs
  {
    forall i :: 0 <= i < |cs| ==>
      WellFormed(cs[i].box) && Within(cs[i].box, outer) &&
      (cs[i].Inner? ==> Contained(cs[i].children, cs[i].box))
  }

  /** Contained of a list: its first node, then the rest. */
  lemma ContainedCons<T>(cs: seq<Node<T>>, outer: Box)
    requires cs != []
    ensures Contained(cs, outer) <==>
      WellFormed(cs[0].box) && Within(cs[0].box, outer) &&
      (cs[0].Inner? ==> Contained(cs[0].children, cs[0].box)) &&
      Contained(cs[1..], outer)
  {
    if WellFormed(cs[0].box) && Within(cs[0].box, outer) &&
       (cs[0].Inner? ==> Contained(cs[0].children, cs[0].box)) && Contained(cs[1..], outer)
    {
      forall i | 0 <= i < |cs|
        ensures WellFormed(cs[i].box) && Within(cs[i].box, outer) &&
                (cs[i].Inner? ==> Contained(cs[i].children, cs[i].box))
      {
        if i > 0 {
          assert cs[i] == cs[1..][i - 1];
        }
      }
    }
    if Contained(cs, outer) {
      forall i | 0 <= i < |cs| - 1
        ensures WellFormed(cs[1..][i].box) && Within(cs[1..][i].box, outer) &&
                (cs[1..][i].Inner? ==> Contained(cs[1..][i].children, cs[1..][i].box))
      {
        assert cs[1..][i] == cs[i + 1];
      }
    }
  }

  /** Validate passes exactly when every box is well-formed and inside its parent's. */
  lemma {:induction false} CheckedOk<T>(cs: seq<Node<T>>, outer: Box)
    ensures Checked(cs, outer).Ok? <==> Contained(cs, outer)
    decreases cs
  {
    if cs != [] {
      var c := cs[0];
      CheckedOk(cs[1..], outer);
      if c.Inner? {
        CheckedOk(c.children, c.box);
      }
      if WellFormed(c.box) {
        ContainsWellFormed(outer, c.box);
      }
      ContainedCons(cs, outer);
    }
  }

  /** Every leaf below sits inside the outer box. */
  lemma {:induction false} LeavesWithin<T>(cs: seq<Node<T>>, outer: Box)
    requires Nested(cs, outer)
    ensures forall k :: 0 <= k < |Leaves(cs)| ==> Within(Leaves(cs)[k].box, outer)
    decreases cs
  {
    if cs != [] {
      assert Nested(cs[1..], outer) by {
        forall i | 0 <= i < |cs| - 1 ensures Within(cs[1..][i].box, outer) {
          assert cs[1..][i] == cs[i + 1];
        }
      }
      LeavesWithin(cs[1..], outer);
      if cs[0].Inner? {
        LeavesWithin(cs[0].children, cs[0].box);
      }
    }
  }

  /** In a nested tree whose leaf boxes are well-formed, Validate does not throw. */
  lemma {:induction false} NestedChecked<T>(cs: seq<Node<T>>, outer: Box)
    requires Nested(cs, outer)
    requires forall k :: 0 <= k < |Leaves(cs)| ==> WellFormed(Leaves(cs)[k].box)
    ensures Checked(cs, outer).Ok?
    decreases cs
  {
    NestedContained(cs, outer);
    CheckedOk(cs, outer);
  }

  lemma {:induction false} NestedContained<T>(cs: seq<Node<T>>, outer: Box)
    requires Nested(cs, outer)
    requires forall k :: 0 <= k < |Leaves(cs)| ==> WellFormed(Leaves(cs)[k].box)
    ensures Contained(cs, outer)
    decreases cs
  {
    forall i | 0 <= i < |cs|
      ensures WellFormed(cs[i].box) && (cs[i].Inner? ==> Contained(cs[i].children, cs[i].box))
    {
      LeavesAppend(cs[..i], cs[i..]);
      assert cs == cs[..i] + cs[i..];
      assert Leaves(cs[i..]) == Leaves([cs[i]]) + Leaves(cs[i + 1..]) by {
        assert cs[i..] == [cs[i]] + cs[i + 1..];
        LeavesAppend([cs[i]], cs[i + 1..]);
      }
      var before := |Leaves(cs[..i])|;
      if cs[i].Leaf? {
        assert Leaves(cs)[before] == cs[i];
      } else {
        var own := Leaves(cs[i].children);
        assert Leaves([cs[i]]) == own + Leaves([]);
        assert forall k :: 0 <= k < |own| ==> own[k] == Leaves(cs)[before + k];
        NestedContained(cs[i].children, cs[i].box);
        var c := cs[i].children[0];
        assert WellFormed(c.box) && Within(c.box, cs[i].box);
      }
    }
  }

  /** The values of the leaves whose box meets the test box, in order. */
  function Meeting<T>(ls: seq<Node<T>>, test: Box): seq<T>
  {
    if ls == [] then []
    else (if ls[0].Leaf? && Intersects(ls[0].box, test) then [ls[0].value] else []) + Meeting(ls[1..], test)
  }

  lemma {:induction false} MeetingAppend<T>(a: seq<Node<T>>, b: seq<Node<T>>, test: Box)
    ensures Meeting(a + b, test) == Meeting(a, test) + Meeting(b, test)
    decreases |a|
  {
    if a != [] {
      assert (a + b)[0] == a[0] && (a + b)[1..] == a[1..] + b;
      MeetingAppend(a[1..], b, test);
      var h := if a[0].Leaf? && Intersects(a[0].box, test) then [a[0].value] else [];
      assert Meeting(a, test) == h + Meeting(a[1..], test);
      assert Meeting(a + b, test) == h + Meeting(a[1..] + b, test);
    } else {
      assert a + b == b;
    }
  }

  /** A value is met exactly when some leaf holding it has a box that meets the test box. */
  lemma {:induction false} MeetingMembers<T>(ls: seq<Node<T>>, test: Box, x: T)
    ensures x in Meeting(ls, test) <==>
      exists j :: 0 <= j < |ls| && ls[j].Leaf? && Intersects(ls[j].box, test) && ls[j].value == x
    decreases |ls|
  {
    if ls != [] {
      MeetingMembers(ls[1..], test, x);
      if exists j :: 0 <= j < |ls| && ls[j].Leaf? && Intersects(ls[j].box, test) && ls[j].value == x {
        var j :| 0 <= j < |ls| && ls[j].Leaf? && Intersects(ls[j].box, test) && ls[j].value == x;
        if j > 0 {
          assert ls[1..][j - 1] == ls[j];
        }
      }
      if x in Meeting(ls[1..], test) {
        var j :| 0 <= j < |ls[1..]| && ls[1..][j].Leaf? && Intersects(ls[1..][j].box, test) && ls[1..][j].value == x;
        assert ls[j + 1] == ls[1..][j];
      }
    }
  }

  /**
   * The values the query reaches when every visit continues: a node is looked into only when
   * its own box meets the test box.
   */
  function Reached<T>(cs: seq<Node<T>>, test: Box): seq<T>
    decreases cs
  {
    if cs == [] then []
    else
      (if !Intersects(cs[0].box, test) then []
       else if cs[0].Leaf? then [cs[0].value]
       else Reached(cs[0].children, test)) + Reached(cs[1..], test)
  }

  /** Below a box that misses the test box, no leaf of a nested tree meets it. */
  lemma {:induction false} MissedSubtree<T>(cs: seq<Node<T>>, outer: Box, test: Box)
    requires Nested(cs, outer) && !Intersects(outer, test)
    ensures Meeting(Leaves(cs), test) == []
    decreases cs
  {
    if cs != [] {
      var c := cs[0];
      assert Nested(cs[1..], outer) by {
        forall i | 0 <= i < |cs| - 1 ensures Within(cs[1..][i].box, outer) {
          assert cs[1..][i] == cs[i + 1];
        }
      }
      MissedSubtree(cs[1..], outer, test);
      var own := if c.Leaf? then [c] else Leaves(c.children);
      LeavesAppend([c], cs[1..]);
      assert cs == [c] + cs[1..];
      assert Leaves([c]) == own + Leaves([]);
      MeetingAppend(own, Leaves(cs[1..]), test);
      if Intersects(c.box, test) {
        IntersectsOutward(c.box, outer, test);
      }
      if c.Inner? {
        MissedSubtree(c.children, c.box, test);
      }
    }
  }

  /**
   * In a nested tree the query, when every visit continues, reaches exactly the leaves whose
   * box meets the test box, each once and in depth-first order.
   */
  lemma {:induction false} ReachedMeeting<T>(cs: seq<Node<T>>, outer: Box, test: Box)
    requires Nested(cs, outer)
    ensures Reached(cs, test) == Meeting(Leaves(cs), test)
    decreases cs
  {
    if cs != [] {
      var c := cs[0];
      assert Nested(cs[1..], outer) by {
        forall i | 0 <= i < |cs| - 1 ensures Within(cs[1..][i].box, outer) {
          assert cs[1..][i] == cs[i + 1];
        }
      }
      ReachedMeeting(cs[1..], outer, test);
      var own := if c.Leaf? then [c] else Leaves(c.children);
      LeavesAppend([c], cs[1..]);
      assert cs == [c] + cs[1..];
      assert Leaves([c]) == own + Leaves([]);
      MeetingAppend(own, Leaves(cs[1..]), test);
      if c.Inner? {
        if Intersects(c.box, test) {
          ReachedMeeting(c.children, c.box, test);
        } else {
          MissedSubtree(c.children, c.box, test);
        }
      }
    }
  }

  /**
   * BBNode.DoActionOnIntersectingMeshes over the children: what it returns (an exception of
   * the visitor is an `Err`), and the values it visited. A child whose box meets the test box
   * is visited if it is a leaf and walked if it has children; the first `false` or exception
   * ends the walk. The value check on inner nodes cannot fire here, because a node with
   * children never holds a value.
   */
  function Walk<T>(cs: seq<Node<T>>, test: Box, visit: T -> Result<bool>): (r: (Result<bool>, seq<T>))
    ensures r.1 <= Reached(cs, test)
    ensures r.0 == Ok(true) ==> r.1 == Reached(cs, test) && Continued(visit, r.1)
    ensures r.0 != Ok(true) ==> Stopped(visit, r.1, r.0)
    decreases cs
  {
    if cs == [] then (Ok(true), [])
    else if !Intersects(cs[0].box, test) then Walk(cs[1..], test, visit)
    else
      var head := if cs[0].Leaf? then (visit(cs[0].value), [cs[0].value]) else Walk(cs[0].children, test, visit);
      if head.0 != Ok(true) then
        head
      else
        var rest := Walk(cs[1..], test, visit);
        JoinWalks(visit, head.1, rest.1, Reached(cs[1..], test), rest.0);
        (rest.0, head.1 + rest.1)
  }

  /** Every value in s made the visitor continue. */
  predicate Continued<T>(visit: T -> Result<bool>, s: seq<T>)
  {
    forall i :: 0 <= i < |s| ==> visit(s[i]) == Ok(true)
  }

  /** The visits in s all continued but the last, which returned `last`. */
  predicate Stopped<T>(visit: T -> Result<bool>, s: seq<T>, last: Result<bool>)
  {
    |s| > 0 && visit(s[|s| - 1]) == last && Continued(visit, s[..|s| - 1])
  }

  lemma JoinWalks<T>(visit: T -> Result<bool>, a: seq<T>, b: seq<T>, c: seq<T>, last: Result<bool>)
    requires Continued(visit, a) && b <= c
    requires last == Ok(true) ==> Continued(visit, b)
    requires last != Ok(true) ==> Stopped(visit, b, last)
    ensures a + b <= a + c
    ensures last == Ok(true) ==> Continued(visit, a + b)
    ensures last != Ok(true) ==> Stopped(visit, a + b, last)
  {
    assert forall i :: 0 <= i < |b| ==> (a + b)[|a| + i] == b[i];
    if last != Ok(true) {
      assert (a + b)[..|a + b| - 1] == a + b[..|b| - 1];
    }
  }

  lemma Continues<T>(visit: T -> Result<bool>, v: T)
    requires forall w :: visit(w) == Ok(true)
    ensures visit(v) == Ok(true)
  {
  }

  /** When the visitor always continues, the walk visits the reached values and returns true. */
  lemma AllContinue<T>(cs: seq<Node<T>>, outer: Box, test: Box, visit: T -> Result<bool>)
    requires Nested(cs, outer)
    requires forall v :: visit(v) == Ok(true)
    ensures Walk(cs, test, visit) == (Ok(true), Meeting(Leaves(cs), test))
  {
    var r := Walk(cs, test, visit);
    ReachedMeeting(cs, outer, test);
    if r.0 != Ok(true) {
      var last: T := r.1[|r.1| - 1];
      Continues(visit, last);
    }
  }

  /** UpdateBBox: the fold of the children's boxes, or the box kept when there are none. */
  method UpdateBBox<T>(box: Box, cs: seq<Node<T>>) returns (b: Box)
    ensures b == if |cs| == 0 then box else Hull(Boxes(cs))
  {
    if |cs| == 0 {
      return box;
    }
    b := cs[0].box;
    for i := 1 to |cs|
      invariant b == Hull(Boxes(cs)[..i])
    {
      assert Boxes(cs)[..i + 1][..i] == Boxes(cs)[..i];
      b := Merge(b, cs[i].box);
    }
    assert Boxes(cs)[..|cs|] == Boxes(cs);
  }

  /** BBNode.Split on a node value: the children are dealt to the two groups by position. */
  method SplitNode<T>(n: Node<T>) returns (r: Node<T>)
    ensures r == Split(n)
    decreases if n.Leaf? then 0 else |n.children|
  {
    if n.Leaf? || |n.children| < TargetLeafSize {
      return n;
    }
    var centers := SortBy(n.children, LongestAxis(n.box));
    var left: seq<Node<T>> := [];
    var right: seq<Node<T>> := [];
    var mid := |n.children| / 2;
    for i := 0 to |centers|
      invariant i <= mid ==> left == centers[..i] && right == []
      invariant i > mid ==> left == centers[..mid] && right == centers[mid..i]
    {
      if i < mid {
        left := left + [centers[i]];
      } else {
        right := right + [centers[i]];
      }
    }
    assert centers[mid..|centers|] == centers[mid..];
    var leftBox := UpdateBBox(ZeroBox, left);
    var rightBox := UpdateBBox(ZeroBox, right);
    var l := SplitNode(Inner(leftBox, left));
    var rr := SplitNode(Inner(rightBox, right));
    r := Inner(n.box, [l, rr]);
  }

  /** BBNode.DoActionOnIntersectingMeshes: a loop over the children with early return. */
  method WalkNodes<T>(cs: seq<Node<T>>, test: Box, visit: T -> Result<bool>) returns (r: Result<bool>)
    ensures r == Walk(cs, test, visit).0
    decreases cs
  {
    var i := 0;
    while i < |cs|
      invariant 0 <= i <= |cs|
      invariant Walk(cs, test, visit).0 == Walk(cs[i..], test, visit).0
    {
      var c := cs[i];
      WalkStep(cs, i, test, visit);
      if Intersects(c.box, test) {
        var go: Result<bool>;
        if c.Inner? {
          go := WalkNodes(c.children, test, visit);
        } else {
          go := visit(c.value);
        }
        if go != Ok(true) {
          return go;
        }
      }
      i := i + 1;
    }
    return Ok(true);
  }

  /** The walk from child i on: child i's own walk or visit, then, if that went on, the rest. */
  lemma WalkStep<T>(cs: seq<Node<T>>, i: nat, test: Box, visit: T -> Result<bool>)
    requires i < |cs|
    ensures Walk(cs[i..], test, visit).0 ==
      if !Intersects(cs[i].box, test) then Walk(cs[i + 1..], test, visit).0
      else
        var go := if cs[i].Leaf? then visit(cs[i].value) else Walk(cs[i].children, test, visit).0;
        if go != Ok(true) then go else Walk(cs[i + 1..], test, visit).0
  {
    assert cs[i..][0] == cs[i] && cs[i..][1..] == cs[i + 1..];
  }

  /** BBNode.Validate: a loop over the children, recursing into those with children. */
  method ValidateNodes<T>(cs: seq<Node<T>>, outer: Box) returns (r: Result<()>)
    ensures r == Checked(cs, outer)
    decreases cs
  {
    var i := 0;
    while i < |cs|
      invariant 0 <= i <= |cs|
      invariant Checked(cs, outer) == Checked(cs[i..], outer)
    {
      var node := cs[i];
      assert cs[i..][0] == node && cs[i..][1..] == cs[i + 1..];
      if node.box.min.x > node.box.max.x || node.box.min.y > node.box.max.y || node.box.min.z > node.box.max.z {
        return Err(InvalidOperation);
      }
      if ContainsBox(outer, node.box) != Contains {
        return Err(NotContained);
      }
      if node.Inner? {
        var sub := ValidateNodes(node.children, node.box);
        if sub.Err? {
          return sub;
        }
      }
      i := i + 1;
    }
    return Ok(());
  }

  /**
   * The tree invariant on the root's box and children: the tree is nested below the root, its
   * leaves are the inserted ones and the root box is the merge of every inserted box.
   */
  ghost predicate Sound<T>(box: Box, children: seq<Node<T>>, entries: seq<Node<T>>)
  {
    Nested(children, box) &&
    multiset(Leaves(children)) == multiset(entries) &&
    box == Span(entries)
  }

  /** Insert keeps the invariant. */
  lemma InsertSound<T>(box: Box, children: seq<Node<T>>, entries: seq<Node<T>>, leaf: Node<T>)
    requires Sound(box, children, entries) && leaf.Leaf?
    ensures var box' := if |children| == 0 then leaf.box else Merge(leaf.box, box);
      Sound(box', children + [leaf], entries + [leaf])
  {
    var box' := if |children| == 0 then leaf.box else Merge(leaf.box, box);
    InsertLeaves(children, entries, leaf);
    InsertSpan(box, children, entries, leaf);
    InsertNested(box, children, leaf, box');
  }

  /** The leaf inserted joins the leaves below the root. */
  lemma InsertLeaves<T>(children: seq<Node<T>>, entries: seq<Node<T>>, leaf: Node<T>)
    requires multiset(Leaves(children)) == multiset(entries) && leaf.Leaf?
    ensures multiset(Leaves(children + [leaf])) == multiset(entries + [leaf])
  {
    LeavesAppend(children, [leaf]);
    assert Leaves([leaf]) == [leaf] + Leaves([]);
  }

  /** The root box after an insert is the span of the leaves inserted, the new one included. */
  lemma InsertSpan<T>(box: Box, children: seq<Node<T>>, entries: seq<Node<T>>, leaf: Node<T>)
    requires Sound(box, children, entries)
    ensures (if |children| == 0 then leaf.box else Merge(leaf.box, box)) == Span(entries + [leaf])
  {
    var entries' := entries + [leaf];
    if |children| == 0 {
      assert |Leaves(children)| == 0;
      assert entries == [];
      assert Boxes(entries') == [leaf.box];
    } else {
      NestedHasLeaves(children, box);
      assert |entries| > 0;
      assert Boxes(entries') == Boxes(entries) + [leaf.box];
      HullSnoc(Boxes(entries), leaf.box);
    }
  }

  /** A leaf within the new root box, after children nested in a box within it, stays nested. */
  lemma InsertNested<T>(box: Box, children: seq<Node<T>>, leaf: Node<T>, box': Box)
    requires Nested(children, box) && leaf.Leaf? && Within(leaf.box, box')
    requires |children| > 0 ==> Within(box, box')
    ensures Nested(children + [leaf], box')
  {
    var children' := children + [leaf];
    forall i | 0 <= i < |children'|
      ensures Within(children'[i].box, box')
      ensures children'[i].Inner? ==> |children'[i].children| > 0 && Nested(children'[i].children, children'[i].box)
    {
      if i < |children| {
        assert children'[i] == children[i];
      }
    }
  }

  /** Splitting the root keeps the invariant. */
  lemma SplitRootSound<T>(box: Box, children: seq<Node<T>>, entries: seq<Node<T>>)
    requires Sound(box, children, entries)
    ensures Split(Inner(box, children)).Inner?
    ensures Sound(box, Split(Inner(box, children)).children, entries)
  {
    var before := Inner(box, children);
    SplitSound(before);
    LeavesOne(Split(before));
    LeavesOne(before);
  }

  class Tree<T> {
    /** m_root.m_bbox. */
    var box: Box
    /** m_root.m_children: the root always has a child list. */
    var children: seq<Node<T>>
    /** The leaves inserted so far, in insertion order. */
    ghost var entries: seq<Node<T>>

    ghost predicate Valid()
      reads this
    {
      Sound(box, children, entries)
    }

    constructor ()
      ensures Valid() && box == ZeroBox && children == [] && entries == []
    {
      box := ZeroBox;
      children := [];
      entries := [];
    }

    /**
     * Insert: a leaf appended under the root. The root box becomes the inserted box when the
     * root had no children, and the merge of the two boxes otherwise.
     */
    method Insert(bbox: Box, value: T)
      requires Valid()
      modifies this
      ensures Valid()
      ensures entries == old(entries) + [Leaf(bbox, value)]
      ensures children == old(children) + [Leaf(bbox, value)]
      ensures box == if |old(children)| == 0 then bbox else Merge(bbox, old(box))
    {
      InsertSound(box, children, entries, Leaf(bbox, value));
      if |children| == 0 {
        box := bbox;
      } else {
        box := Merge(bbox, box);
      }
      children := children + [Leaf(bbox, value)];
      entries := entries + [Leaf(bbox, value)];
    }

    /** BuildTree: the root split; its box and its leaves stay. */
    method BuildTree()
      requires Valid()
      modifies this
      ensures Valid()
      ensures Inner(box, children) == Split(Inner(old(box), old(children)))
      ensures box == old(box) && entries == old(entries)
    {
      SplitRootSound(box, children, entries);
      var root := SplitNode(Inner(box, children));
      children := root.children;
    }

    /** GetBoundingBox: the root's box, which is the merge of every inserted box. */
    function GetBoundingBox(): (b: Box)
      reads this
      ensures Valid() ==> b == Span(entries)
    {
      box
    }

    /** Validate: every box below the root well-formed and inside its parent's, or it throws. */
    method Validate() returns (r: Result<()>)
      ensures r == Checked(children, box)
      ensures r.Ok? <==> Contained(children, box)
      ensures Valid() && (forall k :: 0 <= k < |entries| ==> WellFormed(entries[k].box)) ==> r.Ok?
    {
      r := ValidateNodes(children, box);
      CheckedOk(children, box);
      if Valid() && (forall k :: 0 <= k < |entries| ==> WellFormed(entries[k].box)) {
        ValidatePasses(box, children, entries);
      }
    }

    /**
     * DoActionOnIntersectingMeshes: the walk from the root. The C# method discards the
     * result; it is returned here so that callers can tell a stopped walk from a finished one.
     */
    method DoActionOnIntersectingMeshes(test: Box, visit: T -> Result<bool>) returns (r: Result<bool>)
      ensures r == Walk(children, test, visit).0
    {
      r := WalkNodes(children, test, visit);
    }
  }

  /** In a sound tree whose inserted boxes are all well-formed, Validate does not throw. */
  lemma ValidatePasses<T>(box: Box, children: seq<Node<T>>, entries: seq<Node<T>>)
    requires Sound(box, children, entries)
    requires forall k :: 0 <= k < |entries| ==> WellFormed(entries[k].box)
    ensures Checked(children, box).Ok?
  {
    var ls := Leaves(children);
    forall k | 0 <= k < |ls| ensures WellFormed(ls[k].box) {
      assert ls[k] in multiset(entries);
    }
    NestedChecked(children, box);
  }
}
