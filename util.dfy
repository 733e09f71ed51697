/// Util.cs: the bounding box of a vertex list, the 3x3 transpose of a matrix, the midpoint of
/// two vectors and mesh-file-name normalisation.
module Util {
  import opened Geometry
  import Ascii

  /**
   * GetBoundingBox: the zero box for no vertices; otherwise min and max start at the first
   * vertex and every vertex (the first again included) lowers min and raises max per axis.
   */
  method GetBoundingBox(vertices: seq<Vec3>) returns (b: Box)
    ensures |vertices| == 0 ==> b == ZeroBox
    ensures |vertices| > 0 ==> b == Bounds(vertices)
    ensures forall i :: 0 <= i < |vertices| ==> Inside(vertices[i], b)
    ensures |vertices| > 0 ==> Attained(b, vertices)
  {
    var min := Origin;
    var max := Origin;
    if |vertices| > 0 {
      var f := vertices[0];
      min := f;
      max := f;
      for k := 0 to |vertices|
        invariant forall i :: 0 <= i < k ==> Inside(vertices[i], Box(min, max))
        invariant Inside(f, Box(min, max))
        invariant Attained(Box(min, max), vertices)
      {
        var v := vertices[k];
        if v.x < min.x {
          min := min.(x := v.x);
        }
        if v.y < min.y {
          min := min.(y := v.y);
        }
        if v.z < min.z {
          min := min.(z := v.z);
        }
        if v.x > max.x {
          max := max.(x := v.x);
        }
        if v.y > max.y {
          max := max.(y := v.y);
        }
        if v.z > max.z {
          max := max.(z := v.z);
        }
      }
      BoundsUnique(Box(min, max), vertices);
    }
    b := Box(min, max);
  }

  /** Midpoint: (a + b) * 0.5, exactly, with floats taken as reals. */
  function Midpoint(a: Vec3, b: Vec3): Vec3
  {
    Vec3((a.x + b.x) * 0.5, (a.y + b.y) * 0.5, (a.z + b.z) * 0.5)
  }

  /** The midpoint lies between the two points on every axis, as far from one as from the other. */
  lemma MidpointBetween(a: Vec3, b: Vec3)
    ensures var m := Midpoint(a, b);
      MinReal(a.x, b.x) <= m.x <= MaxReal(a.x, b.x) &&
      MinReal(a.y, b.y) <= m.y <= MaxReal(a.y, b.y) &&
      MinReal(a.z, b.z) <= m.z <= MaxReal(a.z, b.z) &&
      m.x - a.x == b.x - m.x && m.y - a.y == b.y - m.y && m.z - a.z == b.z - m.z
  {
  }

  /** GetBoundingBoxCenter(BoundingBox): the midpoint of the two corners. */
  function Center(b: Box): Vec3
  {
    Midpoint(b.min, b.max)
  }

  /** The centre of a well-formed box lies in it. */
  lemma CenterInside(b: Box)
    requires WellFormed(b)
    ensures Inside(Center(b), b)
  {
    MidpointBetween(b.min, b.max);
  }

  /** Microsoft.Xna.Framework.Matrix: sixteen cells, row by row. */
  datatype Matrix = Matrix(
    m11: real, m12: real, m13: real, m14: real,
    m21: real, m22: real, m23: real, m24: real,
    m31: real, m32: real, m33: real, m34: real,
    m41: real, m42: real, m43: real, m44: real)

  /** The matrix mirrored across the diagonal of its upper-left 3x3 block. */
  function Transposed3x3(m: Matrix): Matrix
  {
    m.(m12 := m.m21, m21 := m.m12, m13 := m.m31, m31 := m.m13, m23 := m.m32, m32 := m.m23)
  }

  /**
   * FlipMatrixDiagonal3x3 on its `ref` argument: three swaps through a temporary. The matrix
   * passed in is the one before the call, the one returned the one after.
   */
  method FlipMatrixDiagonal3x3(m: Matrix) returns (r: Matrix)
    ensures r == Transposed3x3(m)
  {
    r := m;
    var tmp := r.m12;
    r := r.(m12 := r.m21);
    r := r.(m21 := tmp);

    tmp := r.m13;
    r := r.(m13 := r.m31);
    r := r.(m31 := tmp);

    tmp := r.m23;
    r := r.(m23 := r.m32);
    r := r.(m32 := tmp);
  }

  /** Flipping twice gives back the matrix. */
  lemma FlipInvolution(m: Matrix)
    ensures Transposed3x3(Transposed3x3(m)) == m
  {
  }

  /** The diagonal, the fourth row and the fourth column are untouched. */
  lemma FlipKeepsOthers(m: Matrix)
    ensures var r := Transposed3x3(m);
      r.m11 == m.m11 && r.m22 == m.m22 && r.m33 == m.m33 && r.m44 == m.m44 &&
      r.m14 == m.m14 && r.m24 == m.m24 && r.m34 == m.m34 &&
      r.m41 == m.m41 && r.m42 == m.m42 && r.m43 == m.m43
  {
  }

  /** Row i, column j of the matrix, 1-based. */
  function Cell(m: Matrix, i: int, j: int): real
    requires 1 <= i <= 4 && 1 <= j <= 4
  {
    match (i, j)
    case (1, 1) => m.m11 case (1, 2) => m.m12 case (1, 3) => m.m13 case (1, 4) => m.m14
    case (2, 1) => m.m21 case (2, 2) => m.m22 case (2, 3) => m.m23 case (2, 4) => m.m24
    case (3, 1) => m.m31 case (3, 2) => m.m32 case (3, 3) => m.m33 case (3, 4) => m.m34
    case (4, 1) => m.m41 case (4, 2) => m.m42 case (4, 3) => m.m43 case _ => m.m44
  }

  /** The flip moves cell (i, j) of the 3x3 block to (j, i) and keeps every other cell. */
  lemma FlipCells(m: Matrix, i: int, j: int)
    requires 1 <= i <= 4 && 1 <= j <= 4
    ensures i <= 3 && j <= 3 ==> Cell(Transposed3x3(m), i, j) == Cell(m, j, i)
    ensures i == 4 || j == 4 ==> Cell(Transposed3x3(m), i, j) == Cell(m, i, j)
  {
  }

  /** NormalizeMeshFilename: ToLowerInvariant on ASCII letters (others are kept), then every '\\' becomes '/'. */
  function NormalizeMeshFilename(orig: string): (r: string)
    ensures |r| == |orig|
    ensures forall i :: 0 <= i < |r| ==> r[i] != '\\' && !Ascii.IsUpper(r[i])
    ensures forall i :: 0 <= i < |r| ==> (r[i] == '/' <==> orig[i] == '/' || orig[i] == '\\')
  {
    Ascii.ReplaceChar(Ascii.LowerString(orig), '\\', '/')
  }

  /** Normalising a normalised name changes nothing. */
  lemma NormalizeMeshFilenameIdempotent(orig: string)
    ensures NormalizeMeshFilename(NormalizeMeshFilename(orig)) == NormalizeMeshFilename(orig)
  {
  }
}
