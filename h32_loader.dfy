/// The .h32 terrain heightmap: a square grid of 3-byte records (a 16-bit height, then a
/// material byte), row by row; material 0x3F marks a cut-out cell.
module H32Loader {
  import opened Outcome
  import opened Bytes
  import Cursor
  import Geometry

  /** The material byte of a cut-out cell. */
  const CutoutMaterial := 0x3F

  /** `(int)Math.Sqrt(n)`: the largest w with w * w <= n. */
  function ISqrt(n: nat): (w: nat)
    ensures w * w <= n < (w + 1) * (w + 1)
  {
    Root(n, 0)
  }

  /** The search behind ISqrt: w * w <= n holds so far. */
  function Root(n: nat, w: nat): (r: nat)
    requires w * w <= n
    ensures r * r <= n < (r + 1) * (r + 1)
    decreases n - w
  {
    if (w + 1) * (w + 1) <= n then
      RootGrows(n, w);
      Root(n, w + 1)
    else w
  }

  lemma RootGrows(n: nat, w: nat)
    requires (w + 1) * (w + 1) <= n
    ensures w < n
  {
  }

  /** The number of records of a file of n bytes. */
  function RecordCount(d: seq<byte>): nat
  {
    |d| / 3
  }

  /** The height of record k: the u16 at 3k. */
  function Height(d: seq<byte>, k: nat): u16
    requires k < RecordCount(d)
  {
    U16(d, 3 * k)
  }

  /** The material of record k: the byte at 3k + 2. */
  function Material(d: seq<byte>, k: nat): byte
    requires k < RecordCount(d)
  {
    d[3 * k + 2]
  }

  /** The side of the grid: `(int)Math.Sqrt(Length / 3)`. */
  function Width(d: seq<byte>): nat
  {
    ISqrt(RecordCount(d))
  }

  /** `new Vector3(y * 2, x * 2, p1 / 32f)`: the vertex of column x, row y, height p1. */
  function GridVertex(x: int, y: int, p1: u16): Geometry.Vec3
  {
    Geometry.Vec3((2 * y) as real, (2 * x) as real, p1 as real / 32.0)
  }

  /** The vertex of record k: its row is k / width and its column k % width. */
  function VertexOf(k: nat, width: nat, h: u16): Geometry.Vec3
    requires width > 0
  {
    GridVertex(k % width, k / width, h)
  }

  /** A file with records has a grid of positive width. */
  lemma WidthPositive(d: seq<byte>)
    requires RecordCount(d) > 0
    ensures Width(d) > 0
  {
  }

  /** The vertices of a whole file, in record order, on a grid of width w. */
  function Vertices(d: seq<byte>, w: nat): (vs: seq<Geometry.Vec3>)
    requires w > 0 || RecordCount(d) == 0
    ensures |vs| == RecordCount(d)
  {
    seq(RecordCount(d), k requires 0 <= k < RecordCount(d) => VertexOf(k, w, Height(d, k)))
  }

  /** The records whose material is 0x3F. */
  function Cutouts(d: seq<byte>): set<int>
  {
    set k | 0 <= k < RecordCount(d) && Material(d, k) == CutoutMaterial
  }

  /** Every height is zero (the abyss-style empty terrain). */
  predicate Flat(d: seq<byte>)
  {
    forall k :: 0 <= k < RecordCount(d) ==> Height(d, k) == 0
  }

  /** Row and column of an index in a grid of width w. */
  lemma RowColumn(k: nat, w: nat, x: nat, y: nat)
    requires 0 <= x < w && k == y * w + x
    ensures k / w == y && k % w == x
  {
    var q, r := k / w, k % w;
    assert k == q * w + r && 0 <= r < w;
    assert (q - y) * w == x - r;
    if q > y {
      MulAtLeast(q - y, w);
    } else if q < y {
      assert (y - q) * w == r - x;
      MulAtLeast(y - q, w);
    }
  }

  lemma MulAtLeast(a: int, w: nat)
    requires a >= 1
    ensures a * w >= w
  {
    assert a * w == (a - 1) * w + w;
  }

  /** The next cell of the row-by-row walk: x wraps to 0 and y advances at the end of a row. */
  lemma NextCell(k: nat, w: nat, x: nat, y: nat)
    requires 0 <= x < w && k == y * w + x
    ensures var x' := if x + 1 == w then 0 else x + 1;
            var y' := if x + 1 == w then y + 1 else y;
            0 <= x' < w && k + 1 == y' * w + x'
  {
    if x + 1 == w {
      assert (y + 1) * w == y * w + w;
    }
  }

  /** The state of Load after the first k records: their vertices, their cut-outs, their flatness. */
  predicate LoadedUpTo(d: seq<byte>, w: nat, k: nat, vertices: seq<Geometry.Vec3>, cutouts: set<int>, isEmpty: bool)
  {
    && k <= RecordCount(d) && (w > 0 || RecordCount(d) == 0)
    && vertices == Vertices(d, w)[..k]
    && cutouts == (set i | 0 <= i < k && Material(d, i) == CutoutMaterial)
    && (isEmpty <==> forall i :: 0 <= i < k ==> Height(d, i) == 0)
  }

  /** One record more: the vertex list, the cut-outs and the flatness grow by record k. */
  lemma LoadStep(d: seq<byte>, w: nat, k: nat, x: nat, y: nat, vertices: seq<Geometry.Vec3>, cutouts: set<int>, isEmpty: bool)
    requires k < RecordCount(d) && 0 <= x < w && k == y * w + x
    requires LoadedUpTo(d, w, k, vertices, cutouts, isEmpty)
    ensures LoadedUpTo(d, w, k + 1, vertices + [GridVertex(x, y, Height(d, k))],
                       cutouts + (if Material(d, k) == CutoutMaterial then {k} else {}),
                       isEmpty && Height(d, k) == 0)
  {
    RowColumn(k, w, x, y);
    assert Vertices(d, w)[k] == GridVertex(x, y, Height(d, k));
    assert Vertices(d, w)[..k + 1] == Vertices(d, w)[..k] + [Vertices(d, w)[k]];
  }

  class Loader {
    var vertices: seq<Geometry.Vec3>
    var width: int
    var isEmpty: bool
    var cutoutIndexes: set<int>

    /** The field initialisers: no vertices, empty until a height is seen, no cut-outs. */
    constructor()
      ensures vertices == [] && width == 0 && isEmpty && cutoutIndexes == {}
    {
      vertices := [];
      width := 0;
      isEmpty := true;
      cutoutIndexes := {};
    }

    /** The fields after a successful Load of d. */
    predicate Loaded(d: seq<byte>)
      reads this
    {
      width == Width(d) && (width > 0 || RecordCount(d) == 0) && vertices == Vertices(d, width) && cutoutIndexes == Cutouts(d) && (isEmpty <==> Flat(d))
    }

    /**
     * Load: records are read until the end; a partial record at the end throws. Each
     * record appends its vertex, marks a cut-out when its material is 0x3F, and a
     * nonzero height clears isEmpty.
     */
    method Load(d: seq<byte>) returns (r: Result<()>)
      requires vertices == [] && isEmpty && cutoutIndexes == {}
      modifies this
      ensures r.Ok? <==> |d| % 3 == 0
      ensures r.Err? ==> r.error == EndOfStream
      ensures r.Ok? ==> Loaded(d)
    {
      width := ISqrt(|d| / 3);
      var x := 0;
      var y := 0;
      var p := 0;
      ghost var k := 0;
      while p < |d|
        invariant 0 <= k <= RecordCount(d) && p == 3 * k
        invariant width == Width(d) && (width > 0 ==> 0 <= x < width && k == y * width + x)
        invariant k > 0 ==> width > 0
        invariant LoadedUpTo(d, width, k, vertices, cutoutIndexes, isEmpty)
        decreases |d| - p
      {
        var p1, p2 := Cursor.ReadU16(d, p);
        if p1.Err? {
          return Err(EndOfStream);
        }
        var mat, p3 := Cursor.ReadU8(d, p2);
        if mat.Err? {
          return Err(EndOfStream);
        }
        Record(d, k);
        WidthPositive(d);
        LoadStep(d, width, k, x, y, vertices, cutoutIndexes, isEmpty);
        NextCell(k, width, x, y);
        if mat.value == CutoutMaterial {
          cutoutIndexes := cutoutIndexes + {p3 / 3 - 1};
        }
        if isEmpty && p1.value != 0 {
          isEmpty := false;
        }
        vertices := vertices + [GridVertex(x, y, p1.value)];
        x := x + 1;
        if x == width {
          x := 0;
          y := y + 1;
        }
        p := p3;
        k := k + 1;
      }
      assert Vertices(d, width)[..k] == Vertices(d, width);
      r := Ok(());
    }

    /** VertexLookup: the vertex at index y * width + x; the list indexer throws out of range. */
    function VertexLookup(x: int, y: int): (r: Result<Geometry.Vec3>)
      reads this
      ensures r.Ok? <==> 0 <= y * width + x < |vertices|
    {
      var i := y * width + x;
      if 0 <= i < |vertices| then Ok(vertices[i]) else Err(ArgumentOutOfRange)
    }

    /** IsCutout: index y * width + x is among the cut-out records. */
    function IsCutout(x: int, y: int): (b: bool)
      reads this
      ensures b <==> y * width + x in cutoutIndexes
    {
      y * width + x in cutoutIndexes
    }
  }

  /** `new H32Loader(stream)`: the constructor runs Load, so a partial record makes it throw. */
  method Open(d: seq<byte>) returns (r: Result<Loader>)
    ensures r.Ok? <==> |d| % 3 == 0
    ensures r.Err? ==> r.error == EndOfStream
    ensures r.Ok? ==> fresh(r.value) && r.value.Loaded(d)
  {
    var h := new Loader();
    var loaded := h.Load(d);
    if loaded.Err? {
      return Err(loaded.error);
    }
    r := Ok(h);
  }

  /** Helper of Load: record k is whole, and its values are the reads at 3k. */
  lemma Record(d: seq<byte>, k: nat)
    requires 3 * k + 3 <= |d|
    ensures k < RecordCount(d) && (3 * k + 3) / 3 - 1 == k
    ensures Height(d, k) == U16(d, 3 * k) && Material(d, k) == d[3 * k + 2]
  {
  }

  /** The cut-outs of a loaded file are its 0x3F-material records. */
  lemma {:induction false} CutoutIffMaterial(h: Loader, d: seq<byte>, x: int, y: int)
    requires h.Loaded(d)
    ensures h.IsCutout(x, y) <==>
              0 <= y * h.width + x < RecordCount(d) && Material(d, y * h.width + x) == CutoutMaterial
  {
  }

  /**
   * On a loaded file, looking up column x of row y inside the grid gives the vertex at
   * (2y, 2x) with height h / 32 of that record.
   */
  lemma {:induction false} LookupIsGridVertex(h: Loader, d: seq<byte>, x: int, y: int)
    requires h.Loaded(d) && 0 <= x < h.width && 0 <= y && y * h.width + x < RecordCount(d)
    ensures h.VertexLookup(x, y) ==
              Ok(GridVertex(x, y, Height(d, y * h.width + x)))
  {
    RowColumn(y * h.width + x, h.width, x, y);
  }

  /** The grid is the largest square the records fill: width² records fit, (width + 1)² do not. */
  lemma GridIsLargestSquare(d: seq<byte>)
    ensures Width(d) * Width(d) <= RecordCount(d) < (Width(d) + 1) * (Width(d) + 1)
  {
  }

  /** On a loaded file isEmpty is false exactly when some record has a nonzero height. */
  lemma EmptyIffFlat(h: Loader, d: seq<byte>)
    requires h.Loaded(d)
    ensures !h.isEmpty <==> exists k :: 0 <= k < RecordCount(d) && Height(d, k) != 0
  {
  }
}
