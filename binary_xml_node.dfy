/// BinaryXmlNode.cs: one element of a binary XML document, read recursively. A node is
/// its name's table offset, a flags byte, and then, as the flags say, a value offset, a
/// counted list of attribute offset pairs and a counted list of child nodes.
module BinaryXmlNode {
  import opened Outcome
  import opened Bytes
  import opened ByteHelpers
  import opened BinaryXmlFileHelpers
  import opened BinaryXmlStringTable

  /** An element once read: Value is null unless the flags give one. */
  datatype Node = Node(name: Units, value: Option<Units>, attributes: map<Units, Units>, children: seq<Node>)

  /** `(num1 & 1) == 1`: the node has a value. */
  predicate HasValue(flags: byte) { flags % 2 == 1 }

  /** `(num1 & 2) == 2`: the node has attributes. */
  predicate HasAttributes(flags: byte) { (flags / 2) % 2 == 1 }

  /** `(num1 & 4) == 4`: the node has child nodes. */
  predicate HasChildren(flags: byte) { (flags / 4) % 2 == 1 }

  /** The dictionary the assignments `Attributes[k] = v` build, in order, from an empty one. */
  function MapOf(pairs: seq<(Units, Units)>): (m: map<Units, Units>)
    ensures forall k :: k in m <==> exists i :: 0 <= i < |pairs| && pairs[i].0 == k
  {
    if pairs == [] then map[]
    else
      var last := pairs[|pairs| - 1];
      var m' := MapOf(pairs[..|pairs| - 1]);
      assert forall i :: 0 <= i < |pairs| - 1 ==> pairs[..|pairs| - 1][i] == pairs[i];
      m'[last.0 := last.1]
  }

  /** A key given twice keeps the value of its last pair: a later duplicate overwrites an earlier one. */
  lemma {:induction false} LastWins(pairs: seq<(Units, Units)>, j: nat)
    requires j < |pairs|
    requires forall i :: j < i < |pairs| ==> pairs[i].0 != pairs[j].0
    ensures MapOf(pairs)[pairs[j].0] == pairs[j].1
    decreases |pairs|
  {
    var init := pairs[..|pairs| - 1];
    if j < |pairs| - 1 {
      assert init[j] == pairs[j];
      assert forall i :: j < i < |init| ==> init[i] == pairs[i];
      LastWins(init, j);
    }
  }

  /** ReadPackedS32 followed by getData: a table string named at p. */
  function StringAt(d: seq<byte>, p: nat, table: Option<seq<byte>>): (r: Result<(Units, nat)>)
    ensures r.Ok? ==> p < r.value.1 <= |d|
    ensures r.Ok? ==> Packed(d, p).Ok? && Lookup(table, Packed(d, p).value.0) == Ok(r.value.0)
  {
    var (index, q) :- Packed(d, p);
    var s :- Lookup(table, index);
    Ok((s, q))
  }

  /**
   * The attribute loop from q with `left` pairs still to read: both offsets are read before
   * either string is looked up, the key's first. `pairs` holds the pairs read so far.
   */
  function PairsFrom(d: seq<byte>, q: nat, left: int, pairs: seq<(Units, Units)>, table: Option<seq<byte>>)
    : (r: Result<(seq<(Units, Units)>, nat)>)
    requires q <= |d|
    ensures r.Ok? ==> q <= r.value.1 <= |d|
    ensures left <= 0 ==> r == Ok((pairs, q))
    ensures r.Ok? ==> |r.value.0| == |pairs| + (if left > 0 then left else 0)
    ensures r.Ok? ==> r.value.0[..|pairs|] == pairs
    decreases left
  {
    if left <= 0 then Ok((pairs, q))
    else
      var (keyIndex, q1) :- Packed(d, q);
      var (valueIndex, q2) :- Packed(d, q1);
      var k :- Lookup(table, keyIndex);
      var v :- Lookup(table, valueIndex);
      var r := PairsFrom(d, q2, left - 1, pairs + [(k, v)], table);
      if r.Ok? then
        assert r.value.0[..|pairs|] == (pairs + [(k, v)])[..|pairs|];
        r
      else r
  }

  /** The value section: a value offset when the flags have bit 0, nothing otherwise. */
  function ValueAt(d: seq<byte>, q: nat, flags: byte, table: Option<seq<byte>>): (r: Result<(Option<Units>, nat)>)
    requires q <= |d|
    ensures r.Ok? ==> q <= r.value.1 <= |d|
    ensures r.Ok? ==> (r.value.0.Some? <==> HasValue(flags))
    ensures !HasValue(flags) ==> r == Ok((None, q))
  {
    if HasValue(flags) then
      var (s, q1) :- StringAt(d, q, table);
      Ok((Some(s), q1))
    else Ok((None, q))
  }

  /** The attribute section: a count and its pairs when the flags have bit 1, nothing otherwise. */
  function AttributesAt(d: seq<byte>, q: nat, flags: byte, table: Option<seq<byte>>): (r: Result<(map<Units, Units>, nat)>)
    requires q <= |d|
    ensures r.Ok? ==> q <= r.value.1 <= |d|
    ensures !HasAttributes(flags) ==> r == Ok((map[], q))
  {
    if HasAttributes(flags) then
      var (count, q1) :- Packed(d, q);
      var (pairs, q2) :- PairsFrom(d, q1, count, [], table);
      Ok((MapOf(pairs), q2))
    else Ok((map[], q))
  }

  /**
   * The node at p and the position after it, or the exception Read throws. The sections
   * come in the fixed order name, flags, value, attributes, children; flag bits above
   * bit 2 are ignored.
   */
  function NodeAt(d: seq<byte>, p: nat, table: Option<seq<byte>>): (r: Result<(Node, nat)>)
    requires p <= |d|
    ensures r.Ok? ==> p < r.value.1 <= |d|
    ensures r.Ok? ==> StringAt(d, p, table).Ok? && r.value.0.name == StringAt(d, p, table).value.0
    ensures r.Ok? ==> StringAt(d, p, table).value.1 < |d|
    ensures r.Ok? ==> var flags := d[StringAt(d, p, table).value.1];
                      && (r.value.0.value.Some? <==> HasValue(flags))
                      && (!HasAttributes(flags) ==> r.value.0.attributes == map[])
                      && (!HasChildren(flags) ==> r.value.0.children == [])
    decreases |d| - p, 1
  {
    var (name, q1) :- StringAt(d, p, table);
    if q1 >= |d| then Err(EndOfStream)
    else
      var flags := d[q1];
      var (value, q2) :- ValueAt(d, q1 + 1, flags, table);
      var (attributes, q3) :- AttributesAt(d, q2, flags, table);
      var (children, q4) :- ChildrenAt(d, q3, p, flags, table);
      Ok((Node(name, value, attributes, children), q4))
  }

  /** The children section of the node that starts at `start`: a count and its nodes when the flags have bit 2. */
  function ChildrenAt(d: seq<byte>, q: nat, start: nat, flags: byte, table: Option<seq<byte>>): (r: Result<(seq<Node>, nat)>)
    requires start < q <= |d|
    ensures r.Ok? ==> q <= r.value.1 <= |d|
    ensures !HasChildren(flags) ==> r == Ok(([], q))
    decreases |d| - start, 0
  {
    if HasChildren(flags) then
      var (count, q1) :- Packed(d, q);
      ChildrenFrom(d, q1, count, [], table)
    else Ok(([], q))
  }

  /** The child loop from q with `left` children still to read; `nodes` holds those read so far, in order. */
  function ChildrenFrom(d: seq<byte>, q: nat, left: int, nodes: seq<Node>, table: Option<seq<byte>>)
    : (r: Result<(seq<Node>, nat)>)
    requires q <= |d|
    ensures r.Ok? ==> q <= r.value.1 <= |d|
    ensures left <= 0 ==> r == Ok((nodes, q))
    ensures r.Ok? ==> |r.value.0| == |nodes| + (if left > 0 then left else 0)
    ensures r.Ok? ==> r.value.0[..|nodes|] == nodes
    decreases |d| - q, 2
  {
    if left <= 0 then Ok((nodes, q))
    else
      var (child, q1) :- NodeAt(d, q, table);
      var r := ChildrenFrom(d, q1, left - 1, nodes + [child], table);
      if r.Ok? then
        assert r.value.0[..|nodes|] == (nodes + [child])[..|nodes|];
        r
      else r
  }

  /**
   * A node whose flags byte has none of the three bits set is its name alone: no value,
   * an empty dictionary and an empty child list, and it ends right after the flags byte.
   */
  lemma {:induction false} LeafNode(d: seq<byte>, p: nat, table: Option<seq<byte>>, index: i32, q: nat, name: Units)
    requires p <= |d|
    requires Packed(d, p) == Ok((index, q)) && Lookup(table, index) == Ok(name)
    requires q < |d| && !HasValue(d[q]) && !HasAttributes(d[q]) && !HasChildren(d[q])
    ensures NodeAt(d, p, table) == Ok((Node(name, None, map[], []), q + 1))
  {
  }

  /** A reader's result and the position it stopped at, in the form the functions above give them. */
  function At<T>(r: Result<T>, q: nat): Result<(T, nat)>
  {
    if r.Ok? then Ok((r.value, q)) else Err(r.error)
  }

  /**
   * Read: the node at p. The name and the flags byte are read here; each section after
   * them is read by the method named after it, which follows the statements of Read.
   */
  method Read(d: seq<byte>, p: nat, table: StringTable) returns (r: Result<Node>, q: nat)
    requires p <= |d|
    ensures NodeAt(d, p, table.data) == At(r, q)
    decreases |d| - p, 1
  {
    var nameIndex, q1 := ReadPackedS32(d, p);
    if nameIndex.Err? {
      return Err(nameIndex.error), q1;
    }
    var name := table.GetData(nameIndex.value);
    if name.Err? {
      return Err(name.error), q1;
    }
    if q1 >= |d| {
      return Err(EndOfStream), q1;
    }
    var flags := d[q1];
    var value, q2 := ReadValue(d, q1 + 1, flags, table);
    if value.Err? {
      return Err(value.error), q2;
    }
    var attributes, q3 := ReadAttributes(d, q2, flags, table);
    if attributes.Err? {
      return Err(attributes.error), q3;
    }
    var children, q4 := ReadChildren(d, q3, p, flags, table);
    if children.Err? {
      return Err(children.error), q4;
    }
    r, q := Ok(Node(name.value, value.value, attributes.value, children.value)), q4;
  }

  /** The `(num1 & 1) == 1` branch of Read. */
  method ReadValue(d: seq<byte>, p: nat, flags: byte, table: StringTable) returns (r: Result<Option<Units>>, q: nat)
    requires p <= |d|
    ensures ValueAt(d, p, flags, table.data) == At(r, q)
  {
    if !HasValue(flags) {
      return Ok(None), p;
    }
    var offset, q1 := ReadPackedS32(d, p);
    if offset.Err? {
      return Err(offset.error), q1;
    }
    var s := table.GetData(offset.value);
    if s.Err? {
      return Err(s.error), q1;
    }
    r, q := Ok(Some(s.value)), q1;
  }

  /**
   * The `(num1 & 2) == 2` branch of Read: the count, then per pair the key's offset, the
   * value's offset, and the assignment of the looked-up strings into the dictionary.
   */
  method ReadAttributes(d: seq<byte>, p: nat, flags: byte, table: StringTable)
    returns (r: Result<map<Units, Units>>, q: nat)
    requires p <= |d|
    ensures AttributesAt(d, p, flags, table.data) == At(r, q)
  {
    if !HasAttributes(flags) {
      return Ok(map[]), p;
    }
    var count, q1 := ReadPackedS32(d, p);
    if count.Err? {
      return Err(count.error), q1;
    }
    var attributes: map<Units, Units> := map[];
    q := q1;
    var index: int := 0;
    ghost var pairs: seq<(Units, Units)> := [];
    while index < count.value
      invariant q1 <= q <= |d| && |pairs| == index
      invariant count.value > 0 ==> index <= count.value
      invariant attributes == MapOf(pairs)
      invariant PairsFrom(d, q1, count.value, [], table.data) == PairsFrom(d, q, count.value - index, pairs, table.data)
      decreases count.value - index
    {
      var keyIndex, q2 := ReadPackedS32(d, q);
      if keyIndex.Err? {
        return Err(keyIndex.error), q2;
      }
      var valueIndex, q3 := ReadPackedS32(d, q2);
      if valueIndex.Err? {
        return Err(valueIndex.error), q3;
      }
      var k := table.GetData(keyIndex.value);
      if k.Err? {
        return Err(k.error), q3;
      }
      var v := table.GetData(valueIndex.value);
      if v.Err? {
        return Err(v.error), q3;
      }
      attributes := attributes[k.value := v.value];
      pairs := pairs + [(k.value, v.value)];
      assert pairs[..|pairs| - 1] == pairs[..index];
      q, index := q3, index + 1;
    }
    r := Ok(attributes);
  }

  /** The `(num1 & 4) == 4` branch of Read: the count, then each child read by Read and appended. */
  method ReadChildren(d: seq<byte>, p: nat, start: nat, flags: byte, table: StringTable)
    returns (r: Result<seq<Node>>, q: nat)
    requires start < p <= |d|
    ensures ChildrenAt(d, p, start, flags, table.data) == At(r, q)
    decreases |d| - start, 0
  {
    if !HasChildren(flags) {
      return Ok([]), p;
    }
    var count, q1 := ReadPackedS32(d, p);
    if count.Err? {
      return Err(count.error), q1;
    }
    var children: seq<Node> := [];
    q := q1;
    var index: int := 0;
    while index < count.value
      invariant q1 <= q <= |d| && |children| == index
      invariant count.value > 0 ==> index <= count.value
      invariant ChildrenFrom(d, q1, count.value, [], table.data) == ChildrenFrom(d, q, count.value - index, children, table.data)
      decreases count.value - index
    {
      var child, q2 := Read(d, q, table);
      if child.Err? {
        return Err(child.error), q2;
      }
      children := children + [child.value];
      q, index := q2, index + 1;
    }
    r := Ok(children);
  }
}
