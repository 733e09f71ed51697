/// The parts of Microsoft.Xna.Framework's Vector3 and BoundingBox the spatial index relies on,
/// with float coordinates taken as reals. The XNA library itself is not part of this model:
/// its merge, intersection and containment tests are written out as that library defines them.
module Geometry {
  datatype Vec3 = Vec3(x: real, y: real, z: real)

  /** BoundingBox: a corner of least and a corner of greatest coordinates. */
  datatype Box = Box(min: Vec3, max: Vec3)

  const Origin := Vec3(0.0, 0.0, 0.0)

  /** default(BoundingBox), and what Util.GetBoundingBox gives for no vertices. */
  const ZeroBox := Box(Origin, Origin)

  function MinReal(a: real, b: real): real { if a < b then a else b }

  function MaxReal(a: real, b: real): real { if a > b then a else b }

  /** Vector3.Min / Vector3.Max: componentwise. */
  function MinVec(a: Vec3, b: Vec3): (r: Vec3)
    ensures r.x <= a.x && r.x <= b.x && (r.x == a.x || r.x == b.x)
    ensures r.y <= a.y && r.y <= b.y && (r.y == a.y || r.y == b.y)
    ensures r.z <= a.z && r.z <= b.z && (r.z == a.z || r.z == b.z)
  {
    Vec3(MinReal(a.x, b.x), MinReal(a.y, b.y), MinReal(a.z, b.z))
  }

  function MaxVec(a: Vec3, b: Vec3): (r: Vec3)
    ensures r.x >= a.x && r.x >= b.x && (r.x == a.x || r.x == b.x)
    ensures r.y >= a.y && r.y >= b.y && (r.y == a.y || r.y == b.y)
    ensures r.z >= a.z && r.z >= b.z && (r.z == a.z || r.z == b.z)
  {
    Vec3(MaxReal(a.x, b.x), MaxReal(a.y, b.y), MaxReal(a.z, b.z))
  }

  /** Every coordinate of a is at most the matching one of b. */
  predicate Below(a: Vec3, b: Vec3)
  {
    a.x <= b.x && a.y <= b.y && a.z <= b.z
  }

  /** No axis has its least coordinate above its greatest. */
  predicate WellFormed(b: Box)
  {
    Below(b.min, b.max)
  }

  /** v lies in the closed box b. */
  predicate Inside(v: Vec3, b: Box)
  {
    Below(b.min, v) && Below(v, b.max)
  }

  /** inner lies within outer on every axis: Contains(inner) == ContainmentType.Contains for a well-formed inner. */
  predicate Within(inner: Box, outer: Box)
  {
    Below(outer.min, inner.min) && Below(inner.max, outer.max)
  }

  /** BoundingBox.CreateMerged. */
  function Merge(a: Box, b: Box): (r: Box)
    ensures Within(a, r) && Within(b, r)
  {
    Box(MinVec(a.min, b.min), MaxVec(a.max, b.max))
  }

  /** The merge of two boxes is the least box containing both. */
  lemma MergeLeast(a: Box, b: Box, c: Box)
    requires Within(a, c) && Within(b, c)
    ensures Within(Merge(a, b), c)
  {
  }

  lemma MergeWellFormed(a: Box, b: Box)
    requires WellFormed(a) || WellFormed(b)
    ensures WellFormed(Merge(a, b))
  {
  }

  /** BoundingBox.Intersects(BoundingBox): the closed boxes overlap on every axis. */
  predicate Intersects(a: Box, b: Box)
  {
    a.max.x >= b.min.x && a.min.x <= b.max.x &&
    a.max.y >= b.min.y && a.min.y <= b.max.y &&
    a.max.z >= b.min.z && a.min.z <= b.max.z
  }

  /** A box that meets the test box makes every box around it meet it too. */
  lemma IntersectsOutward(inner: Box, outer: Box, test: Box)
    requires Within(inner, outer) && Intersects(inner, test)
    ensures Intersects(outer, test)
  {
  }

  datatype Containment = Disjoint | Contains | Overlaps

  /** BoundingBox.Contains(BoundingBox): Disjoint, Contains, or Intersects (here Overlaps). */
  function ContainsBox(outer: Box, inner: Box): (r: Containment)
    ensures r == Contains <==> Intersects(inner, outer) && Within(inner, outer)
    ensures r == Disjoint <==> !Intersects(inner, outer)
  {
    if inner.max.x < outer.min.x || inner.min.x > outer.max.x ||
       inner.max.y < outer.min.y || inner.min.y > outer.max.y ||
       inner.max.z < outer.min.z || inner.min.z > outer.max.z
    then Disjoint
    else if Within(inner, outer) then Contains
    else Overlaps
  }

  /** For a well-formed inner box, Contains is exactly containment on every axis. */
  lemma ContainsWellFormed(outer: Box, inner: Box)
    requires WellFormed(inner)
    ensures ContainsBox(outer, inner) == Contains <==> Within(inner, outer)
  {
  }

  /** The box spanned by one point. */
  function PointBox(v: Vec3): (r: Box)
    ensures Inside(v, r) && WellFormed(r)
  {
    Box(v, v)
  }

  /** The box grown to take in v. */
  function Include(b: Box, v: Vec3): (r: Box)
    ensures Inside(v, r) && Within(b, r)
  {
    Merge(b, PointBox(v))
  }

  /**
   * BoundingBox.CreateFromPoints on a non-empty array: the least and greatest coordinate on
   * every axis. (An empty array makes it throw; no caller here passes one.)
   */
  function Bounds(ps: seq<Vec3>): (r: Box)
    requires |ps| > 0
    ensures WellFormed(r)
    ensures forall i :: 0 <= i < |ps| ==> Inside(ps[i], r)
    decreases |ps|
  {
    if |ps| == 1 then PointBox(ps[0])
    else
      var b := Bounds(ps[..|ps| - 1]);
      assert forall i :: 0 <= i < |ps| - 1 ==> ps[..|ps| - 1][i] == ps[i];
      Include(b, ps[|ps| - 1])
  }

  /** Each face of the box touches some point: it is the least box holding them all. */
  predicate Attained(b: Box, ps: seq<Vec3>)
  {
    (exists i :: 0 <= i < |ps| && ps[i].x == b.min.x) &&
    (exists i :: 0 <= i < |ps| && ps[i].y == b.min.y) &&
    (exists i :: 0 <= i < |ps| && ps[i].z == b.min.z) &&
    (exists i :: 0 <= i < |ps| && ps[i].x == b.max.x) &&
    (exists i :: 0 <= i < |ps| && ps[i].y == b.max.y) &&
    (exists i :: 0 <= i < |ps| && ps[i].z == b.max.z)
  }

  lemma {:induction false} BoundsAttained(ps: seq<Vec3>)
    requires |ps| > 0
    ensures Attained(Bounds(ps), ps)
    decreases |ps|
  {
    if |ps| > 1 {
      var front := ps[..|ps| - 1];
      BoundsAttained(front);
      var b := Bounds(front);
      assert forall i :: 0 <= i < |front| ==> front[i] == ps[i];
      var last := |ps| - 1;
      var r := Bounds(ps);
      assert r == Include(b, ps[last]);
      if r.min.x != ps[last].x {
        var i :| 0 <= i < |front| && front[i].x == b.min.x;
        assert ps[i].x == r.min.x;
      }
      if r.min.y != ps[last].y {
        var i :| 0 <= i < |front| && front[i].y == b.min.y;
        assert ps[i].y == r.min.y;
      }
      if r.min.z != ps[last].z {
        var i :| 0 <= i < |front| && front[i].z == b.min.z;
        assert ps[i].z == r.min.z;
      }
      if r.max.x != ps[last].x {
        var i :| 0 <= i < |front| && front[i].x == b.max.x;
        assert ps[i].x == r.max.x;
      }
      if r.max.y != ps[last].y {
        var i :| 0 <= i < |front| && front[i].y == b.max.y;
        assert ps[i].y == r.max.y;
      }
      if r.max.z != ps[last].z {
        var i :| 0 <= i < |front| && front[i].z == b.max.z;
        assert ps[i].z == r.max.z;
      }
    }
  }

  /** The bounds are the only box that holds every point and touches them on every face. */
  lemma BoundsUnique(b: Box, ps: seq<Vec3>)
    requires |ps| > 0
    requires forall i :: 0 <= i < |ps| ==> Inside(ps[i], b)
    requires Attained(b, ps)
    ensures b == Bounds(ps)
  {
    var r := Bounds(ps);
    BoundsAttained(ps);
    assert b.min.x == r.min.x by {
      var i :| 0 <= i < |ps| && ps[i].x == b.min.x;
      var j :| 0 <= j < |ps| && ps[j].x == r.min.x;
      assert Inside(ps[i], r) && Inside(ps[j], b);
    }
    assert b.min.y == r.min.y by {
      var i :| 0 <= i < |ps| && ps[i].y == b.min.y;
      var j :| 0 <= j < |ps| && ps[j].y == r.min.y;
      assert Inside(ps[i], r) && Inside(ps[j], b);
    }
    assert b.min.z == r.min.z by {
      var i :| 0 <= i < |ps| && ps[i].z == b.min.z;
      var j :| 0 <= j < |ps| && ps[j].z == r.min.z;
      assert Inside(ps[i], r) && Inside(ps[j], b);
    }
    assert b.max.x == r.max.x by {
      var i :| 0 <= i < |ps| && ps[i].x == b.max.x;
      var j :| 0 <= j < |ps| && ps[j].x == r.max.x;
      assert Inside(ps[i], r) && Inside(ps[j], b);
    }
    assert b.max.y == r.max.y by {
      var i :| 0 <= i < |ps| && ps[i].y == b.max.y;
      var j :| 0 <= j < |ps| && ps[j].y == r.max.y;
      assert Inside(ps[i], r) && Inside(ps[j], b);
    }
    assert b.max.z == r.max.z by {
      var i :| 0 <= i < |ps| && ps[i].z == b.max.z;
      var j :| 0 <= j < |ps| && ps[j].z == r.max.z;
      assert Inside(ps[i], r) && Inside(ps[j], b);
    }
  }
}
