/// A min-priority queue kept as a sorted dictionary from priority to a FIFO bucket.
module PriorityQueue {
  import opened Outcome
  import Collections

  predicate IsLeast(k: int, keys: set<int>)
  {
    k in keys && forall j :: j in keys ==> k <= j
  }

  lemma {:induction false} LeastExists(keys: set<int>)
    requires keys != {}
    ensures exists k :: IsLeast(k, keys)
  {
    Collections.NonEmptyIntsHaveElement(keys);
    var x :| x in keys;
    var rest := keys - {x};
    if rest == {} {
      assert keys == {x};
      assert IsLeast(x, keys);
    } else {
      LeastExists(rest);
      var k :| IsLeast(k, rest);
      var m := if x < k then x else k;
      forall j | j in keys
        ensures m <= j
      {
        if j != x {
          assert j in rest;
        }
      }
      assert IsLeast(m, keys);
    }
  }


  lemma LeastIsUnique(a: int, b: int, keys: set<int>)
    requires IsLeast(a, keys) && IsLeast(b, keys)
    ensures a == b
  {
  }

  /** The first key of the sorted dictionary. */
  ghost function FirstKey(keys: set<int>): (k: int)
    requires keys != {}
    ensures IsLeast(k, keys)
  {
    LeastExists(keys);
    var k :| IsLeast(k, keys);
    k
  }

  /** The number of queued elements: the sum of the bucket lengths. */
  ghost function Count<T>(m: map<int, seq<T>>): nat
    decreases |m.Keys|
  {
    if m == map[] then 0
    else
      var k := FirstKey(m.Keys);
      assert |(m - {k}).Keys| < |m.Keys| by { assert m.Keys == (m - {k}).Keys + {k}; }
      |m[k]| + Count(m - {k})
  }

  /** The sum can be split at any bucket, not only at the first one. */
  lemma {:induction false} CountRemove<T>(m: map<int, seq<T>>, p: int)
    requires p in m
    ensures Count(m) == |m[p]| + Count(m - {p})
    decreases |m.Keys|
  {
    var k := FirstKey(m.Keys);
    assert m.Keys == (m - {k}).Keys + {k};
    if p != k {
      var rest := m - {k};
      CountRemove(rest, p);
      assert rest - {p} == (m - {p}) - {k};
      var without := m - {p};
      assert without != map[] && k in without;
      assert IsLeast(k, without.Keys);
      LeastIsUnique(k, FirstKey(without.Keys), without.Keys);
      assert without.Keys == (without - {k}).Keys + {k};
    }
  }

  lemma CountPositive<T>(m: map<int, seq<T>>)
    requires m != map[] && forall p :: p in m ==> m[p] != []
    ensures Count(m) > 0
  {
  }

  /** The bucket map after pushing `value` with `priority`. */
  function Pushed<T>(m: map<int, seq<T>>, value: T, priority: int): map<int, seq<T>>
  {
    m[priority := (if priority in m then m[priority] else []) + [value]]
  }

  /** The bucket map after popping the head of bucket `k`. */
  function Popped<T>(m: map<int, seq<T>>, k: int): map<int, seq<T>>
    requires k in m && m[k] != []
  {
    if |m[k]| == 1 then m - {k} else m[k := m[k][1..]]
  }

  lemma {:induction false} PushCountsOne<T>(m: map<int, seq<T>>, value: T, priority: int)
    ensures Count(Pushed(m, value, priority)) == Count(m) + 1
  {
    var n := Pushed(m, value, priority);
    CountRemove(n, priority);
    assert n - {priority} == m - {priority};
    if priority in m {
      CountRemove(m, priority);
    } else {
      assert m - {priority} == m;
    }
  }

  lemma {:induction false} PopCountsOne<T>(m: map<int, seq<T>>, k: int)
    requires k in m && m[k] != []
    ensures Count(Popped(m, k)) == Count(m) - 1
  {
    CountRemove(m, k);
    var n := Popped(m, k);
    if |m[k]| != 1 {
      CountRemove(n, k);
      assert n - {k} == m - {k};
    }
  }

  class PriorityQueue<T> {
    /** m_items: priority |-> bucket, the bucket's head being the oldest element. */
    var items: map<int, seq<T>>

    /** Pop removes a bucket as soon as it empties, so no stored bucket is empty. */
    ghost predicate Valid()
      reads this
    {
      forall p :: p in items ==> items[p] != []
    }

    constructor ()
      ensures Valid() && items == map[]
    {
      items := map[];
    }

    method Push(value: T, priority: int)
      requires Valid()
      modifies this
      ensures Valid()
      ensures items == Pushed(old(items), value, priority)
      ensures Count(items) == Count(old(items)) + 1
    {
      var q := if priority in items then items[priority] else [];
      items := items[priority := q + [value]];
      PushCountsOne(old(items), value, priority);
    }

    /**
     * Dequeues the head of the first (least-priority) bucket; `First()` on an empty
     * dictionary throws.
     */
    method Pop() returns (r: Result<T>)
      requires Valid()
      modifies this
      ensures Valid()
      ensures r.Ok? <==> old(items) != map[]
      ensures r.Ok? ==> r.value == old(items)[FirstKey(old(items).Keys)][0]
      ensures r.Ok? ==> items == Popped(old(items), FirstKey(old(items).Keys))
      ensures r.Ok? ==> Count(items) == Count(old(items)) - 1
      ensures r.Err? ==> items == old(items)
    {
      if items == map[] {
        return Err("sequence contains no elements");
      }
      LeastExists(items.Keys);
      var k :| IsLeast(k, items.Keys);
      LeastIsUnique(k, FirstKey(items.Keys), items.Keys);
      var q := items[k];
      r := Ok(q[0]);
      if |q| == 1 {
        items := items - {k};
      } else {
        items := items[k := q[1..]];
      }
      PopCountsOne(old(items), k);
    }

    function Empty(): (e: bool)
      requires Valid()
      reads this
      ensures e <==> Count(items) == 0
    {
      if items != map[] then CountPositive(items); false else true
    }
  }

  /** The bucket of priority p, empty when p has none. */
  function Bucket<T>(m: map<int, seq<T>>, p: int): seq<T>
  {
    if p in m then m[p] else []
  }

  /** The bucket map after pushing each of xs with priority p, in order. */
  function PushedAll<T>(m: map<int, seq<T>>, xs: seq<T>, p: int): map<int, seq<T>>
    decreases |xs|
  {
    if xs == [] then m else PushedAll(Pushed(m, xs[0], p), xs[1..], p)
  }

  /**
   * Elements of one priority wait in the order they arrived, behind those already
   * waiting; the other buckets are untouched.
   */
  lemma {:induction false} SamePriorityIsFifo<T>(m: map<int, seq<T>>, xs: seq<T>, p: int)
    ensures Bucket(PushedAll(m, xs, p), p) == Bucket(m, p) + xs
    ensures forall k :: k != p ==> Bucket(PushedAll(m, xs, p), k) == Bucket(m, k)
    decreases |xs|
  {
    if xs != [] {
      var m1 := Pushed(m, xs[0], p);
      SamePriorityIsFifo(m1, xs[1..], p);
      assert Bucket(m1, p) == Bucket(m, p) + [xs[0]];
      assert Bucket(m, p) + xs == Bucket(m1, p) + xs[1..];
    }
  }

  /** Popping bucket k hands over its head and leaves the rest of it in order. */
  lemma PopTakesHead<T>(m: map<int, seq<T>>, k: int)
    requires k in m && m[k] != []
    ensures Bucket(Popped(m, k), k) == m[k][1..]
    ensures forall j :: j != k ==> Bucket(Popped(m, k), j) == Bucket(m, j)
  {
  }
}
