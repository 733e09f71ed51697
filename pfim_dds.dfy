/// Pfim's DirectDraw Surface support: the header checks, the decoder a pixel format selects,
/// the DXT1, DXT3, DXT5 and BC5 block decoders and the channel swap of uncompressed images.
module PfimDds {
  import opened Outcome
  import opened Bytes
  import Cursor
  import CsMath
  import Float32

  // ---------------------------------------------------------------------------------------
  // Blocks: where a decoder writes into the output buffer
  // ---------------------------------------------------------------------------------------

  /** The range of a C# uint: `dataIndex` and `width` wrap modulo this. */
  const Word := 0x1_0000_0000

  /** One assignment `data[at] = value` of a block decoder. */
  datatype Write = Write(at: nat, value: byte)

  /** `data[at] = v` on a buffer; a write past the end changes nothing (the decoders check their bounds first). */
  function Set(s: seq<byte>, at: nat, v: byte): (t: seq<byte>)
    ensures |t| == |s|
  {
    if at < |s| then s[at := v] else s
  }

  /** The buffer s after the writes ws, in order: a later write to the same byte wins. */
  function Apply(s: seq<byte>, ws: seq<Write>): (t: seq<byte>)
    ensures |t| == |s|
    decreases |ws|
  {
    if ws == [] then s
    else Set(Apply(s, ws[..|ws| - 1]), ws[|ws| - 1].at, ws[|ws| - 1].value)
  }

  /** Writes in two batches: the second batch applies to the result of the first. */
  lemma {:induction false} ApplyConcat(s: seq<byte>, a: seq<Write>, b: seq<Write>)
    ensures Apply(s, a + b) == Apply(Apply(s, a), b)
    decreases |b|
  {
    if b == [] {
      assert a + b == a;
    } else {
      assert (a + b)[..|a + b| - 1] == a + b[..|b| - 1];
      ApplyConcat(s, a, b[..|b| - 1]);
    }
  }

  /** A byte no write touches keeps its value. */
  lemma {:induction false} ApplyUntouched(s: seq<byte>, ws: seq<Write>, k: nat)
    requires k < |s| && forall w :: w in ws ==> w.at != k
    ensures Apply(s, ws)[k] == s[k]
    decreases |ws|
  {
    if ws != [] {
      ApplyUntouched(s, ws[..|ws| - 1], k);
    }
  }

  /** A byte that some write reaches, and every write to it puts the same value, holds that value. */
  lemma {:induction false} ApplyHit(s: seq<byte>, ws: seq<Write>, w: Write)
    requires w in ws && w.at < |s|
    requires forall w' :: w' in ws && w'.at == w.at ==> w'.value == w.value
    ensures Apply(s, ws)[w.at] == w.value
    decreases |ws|
  {
    var last := ws[|ws| - 1];
    if last.at != w.at {
      assert ws == ws[..|ws| - 1] + [last];
      ApplyHit(s, ws[..|ws| - 1], w);
    }
  }

  /**
   * Where row i of a block starts: dataIndex for row 0; after the four pixels of a row
   * (`depth * 4` increments), `dataIndex += depth * (width - 4)`, all in uint arithmetic.
   */
  function RowStart(d0: u32, width: u32, depth: nat, i: nat): u32
  {
    if i == 0 then d0
    else ((RowStart(d0, width, depth, i - 1) + depth * 4) % Word + (depth * ((width - 4) % Word)) % Word) % Word
  }

  /** The byte of channel c of pixel (i, j) of a block: `dataIndex++` once per channel from the start of row i. */
  function Pos(d0: u32, width: u32, depth: nat, i: nat, j: nat, c: nat): u32
  {
    (RowStart(d0, width, depth, i) + depth * j + c) % Word
  }

  /** The closed form: row i starts i * depth * width bytes after dataIndex, modulo 2^32. */
  lemma {:induction false} RowStartClosed(d0: u32, width: u32, depth: nat, i: nat)
    ensures RowStart(d0, width, depth, i) == (d0 + i * (depth * width)) % Word
  {
    if i > 0 {
      RowStartClosed(d0, width, depth, i - 1);
      RowStep(d0 + (i - 1) * (depth * width), depth, width);
      MulSucc(i - 1, depth * width);
    }
  }

  /** One row in uint arithmetic: 4 pixels of depth bytes, then `depth * (width - 4)`. */
  lemma RowStep(x: int, depth: nat, width: int)
    ensures ((x % Word + depth * 4) % Word + (depth * ((width - 4) % Word)) % Word) % Word
            == (x + depth * width) % Word
  {
    ModAdd(x, depth * 4);
    AddWrapped(x + depth * 4, depth, width - 4);
    assert depth * (width - 4) == depth * width - depth * 4;
  }

  lemma MulSucc(a: int, b: int)
    ensures a * b + b == (a + 1) * b
  {
  }

  /** A position in closed form. */
  lemma PosClosed(d0: u32, width: u32, depth: nat, i: nat, j: nat, c: nat)
    ensures Pos(d0, width, depth, i, j, c) == (d0 + i * (depth * width) + depth * j + c) % Word
  {
    RowStartClosed(d0, width, depth, i);
    ModAdd(d0 + i * (depth * width), depth * j + c);
  }

  /** The channels of every pixel of the block lie inside a buffer of n bytes, row by row. */
  predicate Fits(d0: u32, width: u32, depth: nat, lo: nat, n: nat)
  {
    forall i: nat :: i < 4 ==> RowFits(d0, width, depth, lo, i, n)
  }

  /** The channels of every pixel of row i lie inside a buffer of n bytes. */
  predicate RowFits(d0: u32, width: u32, depth: nat, lo: nat, i: nat, n: nat)
  {
    forall j: nat :: j < 4 ==> PixelFits(d0, width, depth, lo, i, j, n)
  }

  /** The written channels of pixel (i, j) lie inside a buffer of n bytes. */
  predicate PixelFits(d0: u32, width: u32, depth: nat, lo: nat, i: nat, j: nat, n: nat)
  {
    forall c: nat :: lo <= c < depth ==> Pos(d0, width, depth, i, j, c) < n
  }

  /** px holds 16 pixels of depth - lo written channels each. */
  predicate Shaped(depth: nat, lo: nat, px: seq<seq<byte>>)
  {
    lo < depth && |px| == 16 && forall q :: 0 <= q < 16 ==> |px[q]| == depth - lo
  }

  /** The write of channel c of pixel (i, j): its position and the pixel's value for it. */
  function Put(d0: u32, width: u32, depth: nat, lo: nat, px: seq<seq<byte>>, i: nat, j: nat, c: nat): Write
    requires Shaped(depth, lo, px) && i < 4 && j < 4 && lo <= c < depth
  {
    Write(Pos(d0, width, depth, i, j, c), px[4 * i + j][c - lo])
  }

  /** The writes of pixel (i, j): channels lo..depth-1 in order, px[4 * i + j] holding their values. */
  function PixelWrites(d0: u32, width: u32, depth: nat, lo: nat, px: seq<seq<byte>>, i: nat, j: nat): (ws: seq<Write>)
    requires Shaped(depth, lo, px) && i < 4 && j < 4
    ensures |ws| == depth - lo
  {
    seq(depth - lo, c requires 0 <= c < depth - lo => Put(d0, width, depth, lo, px, i, j, lo + c))
  }

  /** The writes of the first k pixels of row i, left to right. */
  function RowWrites(d0: u32, width: u32, depth: nat, lo: nat, px: seq<seq<byte>>, i: nat, k: nat): seq<Write>
    requires Shaped(depth, lo, px) && i < 4 && k <= 4
  {
    if k == 0 then []
    else RowWrites(d0, width, depth, lo, px, i, k - 1) + PixelWrites(d0, width, depth, lo, px, i, k - 1)
  }

  /**
   * The writes of the first r rows of a 4x4 block, top to bottom, as the decoders issue them;
   * the whole block is r = 4.
   */
  function BlockWrites(d0: u32, width: u32, depth: nat, lo: nat, px: seq<seq<byte>>, r: nat): seq<Write>
    requires Shaped(depth, lo, px) && r <= 4
  {
    if r == 0 then []
    else BlockWrites(d0, width, depth, lo, px, r - 1) + RowWrites(d0, width, depth, lo, px, r - 1, 4)
  }

  /** The buffer s after the first k written channels of pixel (i, j). */
  function AfterChannels(s: seq<byte>, d0: u32, width: u32, depth: nat, lo: nat, px: seq<seq<byte>>, i: nat, j: nat, k: nat): (t: seq<byte>)
    requires Shaped(depth, lo, px) && i < 4 && j < 4 && k <= depth - lo
    ensures |t| == |s|
  {
    if k == 0 then s
    else
      var w := Put(d0, width, depth, lo, px, i, j, lo + k - 1);
      Set(AfterChannels(s, d0, width, depth, lo, px, i, j, k - 1), w.at, w.value)
  }

  /** The buffer s after the first k pixels of row i. */
  function AfterPixels(s: seq<byte>, d0: u32, width: u32, depth: nat, lo: nat, px: seq<seq<byte>>, i: nat, k: nat): (t: seq<byte>)
    requires Shaped(depth, lo, px) && i < 4 && k <= 4
    ensures |t| == |s|
  {
    if k == 0 then s
    else AfterChannels(AfterPixels(s, d0, width, depth, lo, px, i, k - 1), d0, width, depth, lo, px, i, k - 1, depth - lo)
  }

  /** The buffer s after the first r rows of the block: the decoded block is r = 4. */
  function AfterRows(s: seq<byte>, d0: u32, width: u32, depth: nat, lo: nat, px: seq<seq<byte>>, r: nat): (t: seq<byte>)
    requires Shaped(depth, lo, px) && r <= 4
    ensures |t| == |s|
  {
    if r == 0 then s
    else AfterPixels(AfterRows(s, d0, width, depth, lo, px, r - 1), d0, width, depth, lo, px, r - 1, 4)
  }

  lemma {:induction false} ChannelsApply(s: seq<byte>, d0: u32, width: u32, depth: nat, lo: nat, px: seq<seq<byte>>, i: nat, j: nat, k: nat)
    requires Shaped(depth, lo, px) && i < 4 && j < 4 && k <= depth - lo
    ensures AfterChannels(s, d0, width, depth, lo, px, i, j, k) == Apply(s, PixelWrites(d0, width, depth, lo, px, i, j)[..k])
    decreases k
  {
    var pw := PixelWrites(d0, width, depth, lo, px, i, j);
    if k > 0 {
      ChannelsApply(s, d0, width, depth, lo, px, i, j, k - 1);
      assert pw[..k][..k - 1] == pw[..k - 1];
      assert pw[..k][k - 1] == Put(d0, width, depth, lo, px, i, j, lo + k - 1);
    }
  }

  lemma {:induction false} PixelsApply(s: seq<byte>, d0: u32, width: u32, depth: nat, lo: nat, px: seq<seq<byte>>, i: nat, k: nat)
    requires Shaped(depth, lo, px) && i < 4 && k <= 4
    ensures AfterPixels(s, d0, width, depth, lo, px, i, k) == Apply(s, RowWrites(d0, width, depth, lo, px, i, k))
    decreases k
  {
    if k > 0 {
      PixelsApply(s, d0, width, depth, lo, px, i, k - 1);
      var pw := PixelWrites(d0, width, depth, lo, px, i, k - 1);
      ChannelsApply(AfterPixels(s, d0, width, depth, lo, px, i, k - 1), d0, width, depth, lo, px, i, k - 1, depth - lo);
      assert pw[..depth - lo] == pw;
      ApplyConcat(s, RowWrites(d0, width, depth, lo, px, i, k - 1), pw);
    }
  }

  /** The nested row, pixel and channel updates are the block's list of writes, applied in order. */
  lemma {:induction false} RowsApply(s: seq<byte>, d0: u32, width: u32, depth: nat, lo: nat, px: seq<seq<byte>>, r: nat)
    requires Shaped(depth, lo, px) && r <= 4
    ensures AfterRows(s, d0, width, depth, lo, px, r) == Apply(s, BlockWrites(d0, width, depth, lo, px, r))
    decreases r
  {
    if r > 0 {
      RowsApply(s, d0, width, depth, lo, px, r - 1);
      PixelsApply(AfterRows(s, d0, width, depth, lo, px, r - 1), d0, width, depth, lo, px, r - 1, 4);
      ApplyConcat(s, BlockWrites(d0, width, depth, lo, px, r - 1), RowWrites(d0, width, depth, lo, px, r - 1, 4));
    }
  }

  /** Every write of the first k pixels of row i puts channel c of one of them. */
  lemma {:induction false} RowWriteOrigin(d0: u32, width: u32, depth: nat, lo: nat, px: seq<seq<byte>>, i: nat, k: nat, w: Write)
    returns (j: nat, c: nat)
    requires Shaped(depth, lo, px) && i < 4 && k <= 4 && w in RowWrites(d0, width, depth, lo, px, i, k)
    ensures j < k && lo <= c < depth && w == Put(d0, width, depth, lo, px, i, j, c)
    decreases k
  {
    if w in RowWrites(d0, width, depth, lo, px, i, k - 1) {
      j, c := RowWriteOrigin(d0, width, depth, lo, px, i, k - 1, w);
    } else {
      var pw := PixelWrites(d0, width, depth, lo, px, i, k - 1);
      var n :| 0 <= n < |pw| && pw[n] == w;
      j, c := k - 1, lo + n;
    }
  }

  /** Every write of the first r rows puts channel c of some pixel (i, j), with that pixel's value. */
  lemma {:induction false} BlockWriteOrigin(d0: u32, width: u32, depth: nat, lo: nat, px: seq<seq<byte>>, r: nat, w: Write)
    returns (i: nat, j: nat, c: nat)
    requires Shaped(depth, lo, px) && r <= 4 && w in BlockWrites(d0, width, depth, lo, px, r)
    ensures i < r && j < 4 && lo <= c < depth
    ensures w == Put(d0, width, depth, lo, px, i, j, c)
    decreases r
  {
    if w in BlockWrites(d0, width, depth, lo, px, r - 1) {
      i, j, c := BlockWriteOrigin(d0, width, depth, lo, px, r - 1, w);
    } else {
      i := r - 1;
      j, c := RowWriteOrigin(d0, width, depth, lo, px, r - 1, 4, w);
    }
  }

  /** Channel c of pixel (i, j), j < k, is among the writes of the first k pixels of row i. */
  lemma {:induction false} RowWriteIn(d0: u32, width: u32, depth: nat, lo: nat, px: seq<seq<byte>>, i: nat, k: nat, j: nat, c: nat)
    requires Shaped(depth, lo, px) && i < 4 && j < k <= 4 && lo <= c < depth
    ensures Put(d0, width, depth, lo, px, i, j, c) in RowWrites(d0, width, depth, lo, px, i, k)
    decreases k
  {
    if j < k - 1 {
      RowWriteIn(d0, width, depth, lo, px, i, k - 1, j, c);
    } else {
      assert PixelWrites(d0, width, depth, lo, px, i, j)[c - lo] == Put(d0, width, depth, lo, px, i, j, c);
    }
  }

  /** Channel c of pixel (i, j), i < r, is among the writes of the first r rows. */
  lemma {:induction false} BlockWriteIn(d0: u32, width: u32, depth: nat, lo: nat, px: seq<seq<byte>>, r: nat, i: nat, j: nat, c: nat)
    requires Shaped(depth, lo, px) && i < r <= 4 && j < 4 && lo <= c < depth
    ensures Put(d0, width, depth, lo, px, i, j, c) in BlockWrites(d0, width, depth, lo, px, r)
    decreases r
  {
    if i < r - 1 {
      BlockWriteIn(d0, width, depth, lo, px, r - 1, i, j, c);
    } else {
      RowWriteIn(d0, width, depth, lo, px, i, 4, j, c);
    }
  }

  /** The next channel: `dataIndex++` on a uint. */
  lemma PosNext(d0: u32, width: u32, depth: nat, i: nat, j: nat, c: nat)
    ensures (Pos(d0, width, depth, i, j, c) + 1) % Word == Pos(d0, width, depth, i, j, c + 1)
  {
    ModAdd(RowStart(d0, width, depth, i) + depth * j + c, 1);
  }

  /** After the last channel of a pixel comes the first of the next pixel. */
  lemma PosPixel(d0: u32, width: u32, depth: nat, i: nat, j: nat)
    ensures Pos(d0, width, depth, i, j, depth) == Pos(d0, width, depth, i, j + 1, 0)
  {
    assert depth * (j + 1) == depth * j + depth;
  }

  /** The end of a row: the uint step `dataIndex += depth * (width - 4)` reaches the next row. */
  lemma PosRow(d0: u32, width: u32, depth: nat, i: nat)
    ensures (Pos(d0, width, depth, i, 4, 0) + (depth * ((width - 4) % Word)) % Word) % Word
              == Pos(d0, width, depth, i + 1, 0, 0)
  {
    assert depth * 0 == 0;
    ModSmall(RowStart(d0, width, depth, i + 1));
  }

  /** Adding a uint product: (x mod W + (k (y mod W)) mod W) mod W = (x + k y) mod W. */
  lemma AddWrapped(x: int, k: nat, y: int)
    ensures (x % Word + (k * (y % Word)) % Word) % Word == (x + k * y) % Word
  {
    ModMul(k, y);
    ModAdd(x, (k * y) % Word);
    ModAdd2(x, k * y);
  }

  /** (x mod W + y) mod W = (x + y) mod W. */
  lemma ModAdd(x: int, y: int)
    ensures (x % Word + y) % Word == (x + y) % Word
  {
    ModShift(x % Word + y, x / Word);
  }

  /** (x + y mod W) mod W = (x + y) mod W. */
  lemma ModAdd2(x: int, y: int)
    ensures (x + y % Word) % Word == (x + y) % Word
  {
    ModShift(x + y % Word, y / Word);
  }

  /** (k (y mod W)) mod W = (k y) mod W. */
  lemma ModMul(k: nat, y: int)
    ensures (k * (y % Word)) % Word == (k * y) % Word
  {
    assert k * y == k * (y % Word) + Word * (k * (y / Word)) by {
      assert y == y % Word + Word * (y / Word);
    }
    ModShift(k * (y % Word), k * (y / Word));
  }

  /** Adding a multiple of W does not change a value mod W. */
  lemma ModShift(x: int, m: int)
    ensures (x + Word * m) % Word == x % Word
  {
    var q, r := x / Word, x % Word;
    assert x + Word * m == Word * (q + m) + r;
  }

  /**
   * With a row at least 4 pixels wide and no uint wrap-around, distinct (row, pixel, channel)
   * triples of a block reach distinct bytes.
   */
  lemma PosInjective(d0: u32, width: u32, depth: nat, i: nat, j: nat, c: nat, i': nat, j': nat, c': nat)
    requires width >= 4 && d0 + depth * (3 * width + 4) <= Word
    requires i < 4 && j < 4 && c < depth && i' < 4 && j' < 4 && c' < depth
    requires Pos(d0, width, depth, i, j, c) == Pos(d0, width, depth, i', j', c')
    ensures i == i' && j == j' && c == c'
  {
    PosPlain(d0, width, depth, i, j, c);
    PosPlain(d0, width, depth, i', j', c');
    MulMono(4, width, depth);
    PlainInjective(depth * width, depth, i, j, c, i', j', c');
  }

  /** i S + depth j + c is one-to-one while depth j + c stays below S. */
  lemma PlainInjective(S: nat, depth: nat, i: nat, j: nat, c: nat, i': nat, j': nat, c': nat)
    requires 4 * depth <= S && j < 4 && c < depth && j' < 4 && c' < depth
    requires i * S + depth * j + c == i' * S + depth * j' + c'
    ensures i == i' && j == j' && c == c'
  {
    MulMono(j + 1, 4, depth);
    MulMono(j' + 1, 4, depth);
    Unique(S, i, depth * j + c, i', depth * j' + c');
    Unique(depth, j, c, j', c');
  }

  /** Without wrap-around a position is the plain sum dataIndex + i * depth * width + depth * j + c. */
  lemma PosPlain(d0: u32, width: u32, depth: nat, i: nat, j: nat, c: nat)
    requires d0 + depth * (3 * width + 4) <= Word
    requires i < 4 && j < 4 && c < depth
    ensures Pos(d0, width, depth, i, j, c) == d0 + i * (depth * width) + depth * j + c
  {
    PosClosed(d0, width, depth, i, j, c);
    PlainBound(d0, width, depth, i, j, c);
    ModSmall(d0 + i * (depth * width) + depth * j + c);
  }

  lemma ModSmall(x: int)
    requires 0 <= x < Word
    ensures x % Word == x
  {
  }

  lemma PlainBound(d0: nat, width: nat, depth: nat, i: nat, j: nat, c: nat)
    requires d0 + depth * (3 * width + 4) <= Word
    requires i < 4 && j < 4 && c < depth
    ensures 0 <= d0 + i * (depth * width) + depth * j + c < Word
  {
    MulMono(0, i, depth * width);
    MulMono(0, j, depth);
    MulMono(i, 3, depth * width);
    MulMono(j + 1, 4, depth);
    assert depth * (3 * width + 4) == 3 * (depth * width) + 4 * depth;
  }

  lemma MulMono(a: nat, b: nat, k: nat)
    requires a <= b
    ensures a * k <= b * k
  {
  }

  /** A quotient and a remainder below k determine the number: q * k + r is one-to-one. */
  lemma Unique(k: nat, q: nat, r: nat, q': nat, r': nat)
    requires 0 <= r < k && 0 <= r' < k && q * k + r == q' * k + r'
    ensures q == q' && r == r'
  {
    if q < q' {
      MulMono(q + 1, q', k);
    } else if q' < q {
      MulMono(q' + 1, q, k);
    }
  }

  /**
   * A decoded block on a row of at least 4 pixels, with no uint wrap-around: channel c of
   * pixel (i, j) is at dataIndex + i * depth * width + depth * j + c and holds that pixel's
   * value for the channel.
   */
  lemma BlockPixel(s: seq<byte>, d0: u32, width: u32, depth: nat, lo: nat, px: seq<seq<byte>>, i: nat, j: nat, c: nat)
    requires Shaped(depth, lo, px) && Fits(d0, width, depth, lo, |s|)
    requires width >= 4 && d0 + depth * (3 * width + 4) <= Word
    requires i < 4 && j < 4 && lo <= c < depth
    ensures Pos(d0, width, depth, i, j, c) == d0 + i * (depth * width) + depth * j + c < |s|
    ensures AfterRows(s, d0, width, depth, lo, px, 4)[Pos(d0, width, depth, i, j, c)] == px[4 * i + j][c - lo]
  {
    RowsApply(s, d0, width, depth, lo, px, 4);
    assert RowFits(d0, width, depth, lo, i, |s|);
    assert PixelFits(d0, width, depth, lo, i, j, |s|);
    PosPlain(d0, width, depth, i, j, c);
    var ws := BlockWrites(d0, width, depth, lo, px, 4);
    var w := Put(d0, width, depth, lo, px, i, j, c);
    BlockWriteIn(d0, width, depth, lo, px, 4, i, j, c);
    forall w' | w' in ws && w'.at == w.at
      ensures w'.value == w.value
    {
      var i', j', c' := BlockWriteOrigin(d0, width, depth, lo, px, 4, w');
      PosInjective(d0, width, depth, i, j, c, i', j', c');
    }
    ApplyHit(s, ws, w);
  }

  /** A byte that is no channel of the block keeps its value. */
  lemma BlockElsewhere(s: seq<byte>, d0: u32, width: u32, depth: nat, lo: nat, px: seq<seq<byte>>, k: nat)
    requires Shaped(depth, lo, px) && k < |s|
    requires forall i: nat, j: nat, c: nat :: i < 4 && j < 4 && lo <= c < depth ==> Pos(d0, width, depth, i, j, c) != k
    ensures AfterRows(s, d0, width, depth, lo, px, 4)[k] == s[k]
  {
    RowsApply(s, d0, width, depth, lo, px, 4);
    var ws := BlockWrites(d0, width, depth, lo, px, 4);
    forall w | w in ws
      ensures w.at != k
    {
      var i, j, c := BlockWriteOrigin(d0, width, depth, lo, px, 4, w);
    }
    ApplyUntouched(s, ws, k);
  }

  /** Channel c of pixel (i, j): `data[dataIndex++] = v`. */
  method PutChannel(data: array<byte>, di: u32, v: byte, ghost s: seq<byte>,
                    ghost d0: u32, ghost width: u32, ghost depth: nat, ghost lo: nat, ghost px: seq<seq<byte>>,
                    ghost i: nat, ghost j: nat, ghost c: nat)
    returns (next: u32)
    requires Shaped(depth, lo, px) && i < 4 && j < 4 && lo <= c < depth && px[4 * i + j][c - lo] == v
    requires di == Pos(d0, width, depth, i, j, c) && di < data.Length
    requires data[..] == AfterChannels(s, d0, width, depth, lo, px, i, j, c - lo)
    modifies data
    ensures next == Pos(d0, width, depth, i, j, c + 1)
    ensures data[..] == AfterChannels(s, d0, width, depth, lo, px, i, j, c + 1 - lo)
  {
    data[di] := v;
    next := (di + 1) % Word;
    PosNext(d0, width, depth, i, j, c);
  }

  /** The end of a row: `dataIndex += depth * (width - 4)` in uint arithmetic. */
  method NextRow(di: u32, depth: nat, ghost d0: u32, width: u32, ghost i: nat) returns (next: u32)
    requires di == Pos(d0, width, depth, i, 4, 0)
    ensures next == Pos(d0, width, depth, i + 1, 0, 0)
  {
    PosRow(d0, width, depth, i);
    next := (di + (depth * ((width - 4) % Word)) % Word) % Word;
  }

  // ---------------------------------------------------------------------------------------
  // Colours and alpha gradients
  // ---------------------------------------------------------------------------------------

  /** An RGB triple of a decoder's four-entry colour table. */
  datatype Color888 = Color888(r: byte, g: byte, b: byte)

  /**
   * `x << 3 | x >> 2` on a 5-bit channel: the two parts occupy disjoint bits (x >> 2 < 8), so
   * the OR is their sum. The channel fills the five high bits.
   */
  function Expand5(x: nat): (v: byte)
    requires x < 32
    ensures v / 8 == x
    ensures x == 0 ==> v == 0
    ensures x == 31 ==> v == 255
  {
    8 * x + x / 4
  }

  /** `x << 2 | x >> 3` on a 6-bit channel: the channel fills the six high bits. */
  function Expand6(x: nat): (v: byte)
    requires x < 64
    ensures v / 4 == x
    ensures x == 0 ==> v == 0
    ensures x == 63 ==> v == 255
  {
    4 * x + x / 16
  }

  /**
   * A 16-bit R5G6B5 colour as the decoders unpack it: the field they store in `r` is the low
   * five bits (`color & 0x1f`), `g` the middle six, `b` the high five.
   */
  function Unpack(c: u16): Color888
  {
    Color888(Expand5(c % 32), Expand6(c / 32 % 64), Expand5(c / 2048))
  }

  /** The 16-bit colour back from its expansion: each expanded channel keeps its field. */
  function Repack(col: Color888): nat
  {
    col.r / 8 + 32 * (col.g / 4) + 2048 * (col.b / 8)
  }

  /** The expansion loses nothing: repacking an unpacked colour gives the colour back. */
  lemma UnpackLossless(c: u16)
    ensures Repack(Unpack(c)) == c
  {
    assert c == c % 32 + 32 * (c / 32 % 64) + 2048 * (c / 2048) by {
      assert c / 32 == c / 32 % 64 + 64 * (c / 2048);
    }
  }

  function Min(a: int, b: int): int { if a <= b then a else b }
  function Max(a: int, b: int): int { if a <= b then b else a }

  /** `(2 * x + y) / 3`: one third of the way from x to y. */
  function Third(x: byte, y: byte): (v: byte)
    ensures Min(x, y) <= v <= Max(x, y)
  {
    (2 * x + y) / 3
  }

  /** `(x + y) / 2`: halfway between x and y. */
  function Half(x: byte, y: byte): (v: byte)
    ensures Min(x, y) <= v <= Max(x, y)
  {
    (x + y) / 2
  }

  /** The colour table with two interpolated colours, at one and two thirds. */
  function Palette4(c0: u16, c1: u16): (cs: seq<Color888>)
    ensures |cs| == 4
  {
    var a, b := Unpack(c0), Unpack(c1);
    [a, b,
     Color888(Third(a.r, b.r), Third(a.g, b.g), Third(a.b, b.b)),
     Color888(Third(b.r, a.r), Third(b.g, a.g), Third(b.b, a.b))]
  }

  /** The colour table with the average of the endpoints and black. */
  function Palette3(c0: u16, c1: u16): (cs: seq<Color888>)
    ensures |cs| == 4
  {
    var a, b := Unpack(c0), Unpack(c1);
    [a, b, Color888(Half(a.r, b.r), Half(a.g, b.g), Half(a.b, b.b)), Color888(0, 0, 0)]
  }

  /** DXT1 chooses the four-colour table when color0 > color1, and otherwise three colours and black. */
  function Dxt1Colors(c0: u16, c1: u16): (cs: seq<Color888>)
    ensures |cs| == 4
  {
    if c0 > c1 then Palette4(c0, c1) else Palette3(c0, c1)
  }

  /** Each entry of a colour table lies channel by channel between the table's two endpoints. */
  predicate Between(x: Color888, a: Color888, b: Color888)
  {
    && Min(a.r, b.r) <= x.r <= Max(a.r, b.r)
    && Min(a.g, b.g) <= x.g <= Max(a.g, b.g)
    && Min(a.b, b.b) <= x.b <= Max(a.b, b.b)
  }

  /**
   * The DXT1 table: its endpoints are the unpacked colours; in four-colour mode (color0 >
   * color1) the two others lie between them, otherwise entry 2 lies between them and entry
   * 3 is black.
   */
  lemma Dxt1Table(c0: u16, c1: u16)
    ensures var cs := Dxt1Colors(c0, c1);
            && cs[0] == Unpack(c0) && cs[1] == Unpack(c1)
            && Between(cs[2], cs[0], cs[1])
            && (c0 > c1 ==> Between(cs[3], cs[0], cs[1]))
            && (c0 <= c1 ==> cs[3] == Color888(0, 0, 0))
  {
  }

  /** The 2-bit colour code `(row >> j) & 3`. */
  function Code2(row: byte, j: nat): (k: nat)
    ensures k < 4
  {
    row / Float32.Pow2(j) % 4
  }

  /** The 3-bit index `(codes >> shift) & 7`. */
  function Code3(codes: nat, shift: nat): (k: nat)
    ensures k < 8
  {
    codes / Float32.Pow2(shift) % 8
  }

  /** The six index bytes at p, least significant first, OR-ed into one 48-bit value. */
  function Codes48(stream: seq<byte>, p: nat): nat
    requires p + 6 <= |stream|
  {
    U16(stream, p) + 0x1_0000 * U16(stream, p + 2) + 0x1_0000_0000 * U16(stream, p + 4)
  }

  /** `((n - i) * e0 + i * e1) / n`: step i of n from e0 towards e1. */
  function Lerp(e0: byte, e1: byte, i: nat, n: nat): (v: byte)
    requires 0 < n && i <= n
    ensures Min(e0, e1) <= v <= Max(e0, e1)
  {
    LerpBounds(e0, e1, i, n);
    ((n - i) * e0 + i * e1) / n
  }

  lemma LerpBounds(e0: byte, e1: byte, i: nat, n: nat)
    requires 0 < n && i <= n
    ensures Min(e0, e1) <= ((n - i) * e0 + i * e1) / n <= Max(e0, e1)
  {
    WeightedSum(Min(e0, e1), e0, e1, Max(e0, e1), i, n);
    DivBetween((n - i) * e0 + i * e1, Min(e0, e1), Max(e0, e1), n);
  }

  /** A weighted sum of two values in [lo, hi] with weights adding up to n lies in [lo n, hi n]. */
  lemma WeightedSum(lo: nat, a: nat, b: nat, hi: nat, i: nat, n: nat)
    requires lo <= a <= hi && lo <= b <= hi && i <= n
    ensures lo * n <= (n - i) * a + i * b <= hi * n
  {
    MulMono(lo, a, n - i);
    MulMono(lo, b, i);
    MulMono(a, hi, n - i);
    MulMono(b, hi, i);
    assert lo * (n - i) + lo * i == lo * n;
    assert hi * (n - i) + hi * i == hi * n;
  }

  lemma DivBetween(x: nat, lo: nat, hi: nat, n: nat)
    requires 0 < n && lo * n <= x <= hi * n
    ensures lo <= x / n <= hi
  {
    DivMono(lo * n, x, n);
    DivMono(x, hi * n, n);
    Unique(n, lo * n / n, lo * n % n, lo, 0);
    Unique(n, hi * n / n, hi * n % n, hi, 0);
  }

  lemma DivMono(a: nat, b: nat, n: nat)
    requires 0 < n && a <= b
    ensures a / n <= b / n
  {
    if a / n > b / n {
      MulMono(b / n + 1, a / n, n);
    }
  }

  /**
   * `ExtractGradient`'s table: the two endpoints, then six interpolated values when
   * e0 > e1, else four interpolated values followed by 0 and 255.
   */
  function Gradient(e0: byte, e1: byte): (g: seq<byte>)
    ensures |g| == 8
  {
    [e0, e1] +
    if e0 > e1 then seq(6, k requires 0 <= k < 6 => Lerp(e0, e1, k + 1, 7))
    else seq(4, k requires 0 <= k < 4 => Lerp(e0, e1, k + 1, 5)) + [0, 255]
  }

  /** Every interpolated gradient entry lies between the endpoints; the 4-step table ends with 0 and 255. */
  lemma GradientBetween(e0: byte, e1: byte, k: nat)
    requires 2 <= k < 8
    ensures var g := Gradient(e0, e1);
            && g[0] == e0 && g[1] == e1
            && (e0 > e1 || k < 6 ==> Min(e0, e1) <= g[k] <= Max(e0, e1))
            && (e0 <= e1 ==> g[6] == 0 && g[7] == 255)
  {
  }

  /** With e0 > e1 the gradient falls step by step from e0 to e1. */
  lemma {:induction false} GradientFalls(e0: byte, e1: byte, k: nat)
    requires e0 > e1 && 2 <= k < 7
    ensures var g := Gradient(e0, e1);
            g[0] >= g[2] && g[k] >= g[k + 1] && g[7] >= g[1]
  {
    var g := Gradient(e0, e1);
    assert g[k] == Lerp(e0, e1, k - 1, 7) && g[k + 1] == Lerp(e0, e1, k, 7);
    LerpFalls(e0, e1, k - 1, 7);
  }

  /** Each step of a falling interpolation is no higher than the one before. */
  lemma LerpFalls(e0: byte, e1: byte, i: nat, n: nat)
    requires e0 > e1 && 0 < n && i < n
    ensures Lerp(e0, e1, i, n) >= Lerp(e0, e1, i + 1, n)
  {
    Regroup(n - i - 1, e0, i, e1);
    DivMono((n - i - 1) * e0 + (i + 1) * e1, (n - i) * e0 + i * e1, n);
  }

  /** Moving one unit of weight from x to y lowers the sum by x - y. */
  lemma Regroup(p: nat, x: int, q: nat, y: int)
    ensures (p + 1) * x + q * y == p * x + (q + 1) * y + x - y
  {
    MulSucc(p, x);
    MulSucc(q, y);
  }

  /**
   * `ExtractGradient`: fills the 8-entry table from the two endpoint bytes at bIndex and
   * returns the index after them; a missing endpoint byte throws.
   */
  method ExtractGradient(gradient: array<byte>, stream: seq<byte>, bIndex: nat) returns (r: Result<nat>)
    requires gradient.Length == 8
    modifies gradient
    ensures r.Ok? <==> bIndex + 2 <= |stream|
    ensures r.Ok? ==> r.value == bIndex + 2 && gradient[..] == Gradient(stream[bIndex], stream[bIndex + 1])
    ensures r.Err? ==> r.error == IndexOutOfRange
    ensures r.Err? && bIndex < |stream| ==> gradient[..] == old(gradient[..])[0 := stream[bIndex]]
    ensures r.Err? && bIndex >= |stream| ==> gradient[..] == old(gradient[..])
  {
    if bIndex >= |stream| {
      return Err(IndexOutOfRange);
    }
    var endpoint0 := stream[bIndex];
    gradient[0] := endpoint0;
    if bIndex + 1 >= |stream| {
      return Err(IndexOutOfRange);
    }
    var endpoint1 := stream[bIndex + 1];
    gradient[1] := endpoint1;
    if endpoint0 > endpoint1 {
      var i := 1;
      while i < 7
        invariant 1 <= i <= 7
        invariant gradient[0] == endpoint0 && gradient[1] == endpoint1
        invariant forall k :: 1 <= k < i ==> gradient[1 + k] == Lerp(endpoint0, endpoint1, k, 7)
      {
        gradient[1 + i] := Lerp(endpoint0, endpoint1, i, 7);
        i := i + 1;
      }
    } else {
      var i := 1;
      while i < 5
        invariant 1 <= i <= 5
        invariant gradient[0] == endpoint0 && gradient[1] == endpoint1
        invariant forall k :: 1 <= k < i ==> gradient[1 + k] == Lerp(endpoint0, endpoint1, k, 5)
      {
        gradient[1 + i] := Lerp(endpoint0, endpoint1, i, 5);
        i := i + 1;
      }
      gradient[6] := 0;
      gradient[7] := 255;
    }
    assert gradient[..] == Gradient(endpoint0, endpoint1);
    return Ok(bIndex + 2);
  }

  // ---------------------------------------------------------------------------------------
  // Block decoders
  // ---------------------------------------------------------------------------------------

  function Rgb(c: Color888): seq<byte>
  {
    [c.r, c.g, c.b]
  }

  /**
   * A block's 16 RGB pixels: pixel j of row i takes the entry of the colour table that the
   * 2-bit code `(row >> 2j) & 3` of the row's byte (at rows + i) selects.
   */
  function RgbPixels(colors: seq<Color888>, stream: seq<byte>, rows: nat): (px: seq<seq<byte>>)
    requires |colors| == 4 && rows + 4 <= |stream|
    ensures Shaped(3, 0, px)
  {
    seq(16, q requires 0 <= q < 16 => Rgb(colors[Code2(stream[rows + q / 4], 2 * (q % 4))]))
  }

  lemma RgbPixelAt(colors: seq<Color888>, stream: seq<byte>, rows: nat, i: nat, j: nat)
    requires |colors| == 4 && rows + 4 <= |stream| && i < 4 && j < 4
    ensures RgbPixels(colors, stream, rows)[4 * i + j] == Rgb(colors[Code2(stream[rows + i], 2 * j)])
  {
    assert (4 * i + j) / 4 == i && (4 * i + j) % 4 == j;
  }

  /** The pixels of the DXT1 block at s: two colours, then one code byte per row. */
  function Dxt1Pixels(stream: seq<byte>, s: nat): (px: seq<seq<byte>>)
    requires s + 8 <= |stream|
    ensures Shaped(3, 0, px)
  {
    RgbPixels(Dxt1Colors(U16(stream, s), U16(stream, s + 2)), stream, s + 4)
  }

  /** Pixel (i, j) of an RGB block: `data[dataIndex++] = r; ... = g; ... = b`. */
  method PutRgb(data: array<byte>, di: u32, col: Color888,
                ghost d0: u32, ghost width: u32, ghost px: seq<seq<byte>>, ghost i: nat, ghost j: nat)
    returns (next: u32)
    requires Shaped(3, 0, px) && i < 4 && j < 4 && px[4 * i + j] == Rgb(col)
    requires di == Pos(d0, width, 3, i, j, 0) && PixelFits(d0, width, 3, 0, i, j, data.Length)
    modifies data
    ensures next == Pos(d0, width, 3, i, j + 1, 0)
    ensures data[..] == AfterChannels(old(data[..]), d0, width, 3, 0, px, i, j, 3)
  {
    ghost var s := data[..];
    next := PutChannel(data, di, col.r, s, d0, width, 3, 0, px, i, j, 0);
    next := PutChannel(data, next, col.g, s, d0, width, 3, 0, px, i, j, 1);
    next := PutChannel(data, next, col.b, s, d0, width, 3, 0, px, i, j, 2);
    PosPixel(d0, width, 3, i, j);
  }

  /**
   * One row of an RGB block: for j = 0, 2, 4, 6 the code `(rowVal >> j) & 3` picks the
   * colour of the next pixel.
   */
  method RgbRow(data: array<byte>, di: u32, rowVal: byte, colors: seq<Color888>,
                ghost d0: u32, ghost width: u32, ghost px: seq<seq<byte>>, ghost i: nat)
    returns (next: u32)
    requires |colors| == 4 && Shaped(3, 0, px) && i < 4
    requires forall j :: 0 <= j < 4 ==> px[4 * i + j] == Rgb(colors[Code2(rowVal, 2 * j)])
    requires di == Pos(d0, width, 3, i, 0, 0) && RowFits(d0, width, 3, 0, i, data.Length)
    modifies data
    ensures next == Pos(d0, width, 3, i, 4, 0)
    ensures data[..] == AfterPixels(old(data[..]), d0, width, 3, 0, px, i, 4)
  {
    ghost var s := data[..];
    next := di;
    var j := 0;
    ghost var p := 0;
    while j < 8
      invariant 0 <= p <= 4 && j == 2 * p
      invariant next == Pos(d0, width, 3, i, p, 0)
      invariant data[..] == AfterPixels(s, d0, width, 3, 0, px, i, p)
    {
      var col := colors[Code2(rowVal, j)];
      assert PixelFits(d0, width, 3, 0, i, p, data.Length);
      next := PutRgb(data, next, col, d0, width, px, i, p);
      j, p := j + 2, p + 1;
    }
  }

  /**
   * One pass of the row loop of `Dxt1Dds.Decode`: row i from its code byte at rows + i, then
   * the uint step `dataIndex += 3 * (width - 4)` to the next image row.
   */
  method RgbBlockRow(stream: seq<byte>, rows: nat, colors: seq<Color888>, data: array<byte>, di: u32,
                     ghost dataIndex: u32, width: u32, i: nat)
    returns (next: u32)
    requires |colors| == 4 && rows + 4 <= |stream| && i < 4 && Fits(dataIndex, width, 3, 0, data.Length)
    requires di == Pos(dataIndex, width, 3, i, 0, 0)
    modifies data
    ensures next == Pos(dataIndex, width, 3, i + 1, 0, 0)
    ensures data[..] == AfterPixels(old(data[..]), dataIndex, width, 3, 0, RgbPixels(colors, stream, rows), i, 4)
  {
    ghost var px := RgbPixels(colors, stream, rows);
    var rowVal := stream[rows + i];
    assert RowFits(dataIndex, width, 3, 0, i, data.Length);
    forall j | 0 <= j < 4
      ensures px[4 * i + j] == Rgb(colors[Code2(rowVal, 2 * j)])
    {
      RgbPixelAt(colors, stream, rows, i, j);
    }
    next := RgbRow(data, di, rowVal, colors, dataIndex, width, px, i);
    next := NextRow(next, 3, dataIndex, width, i);
  }

  /** The row loop of `Dxt1Dds.Decode`: four rows of an RGB block from the code bytes at rows. */
  method RgbBlock(stream: seq<byte>, rows: nat, colors: seq<Color888>, data: array<byte>, dataIndex: u32, width: u32)
    requires |colors| == 4 && rows + 4 <= |stream| && Fits(dataIndex, width, 3, 0, data.Length)
    modifies data
    ensures data[..] == AfterRows(old(data[..]), dataIndex, width, 3, 0, RgbPixels(colors, stream, rows), 4)
  {
    ghost var s0 := data[..];
    var di: u32 := dataIndex;
    var i := 0;
    while i < 4
      invariant 0 <= i <= 4
      invariant di == Pos(dataIndex, width, 3, i, 0, 0)
      invariant data[..] == AfterRows(s0, dataIndex, width, 3, 0, RgbPixels(colors, stream, rows), i)
    {
      di := RgbBlockRow(stream, rows, colors, data, di, dataIndex, width, i);
      i := i + 1;
    }
  }

  /**
   * `Dxt1Dds.Decode`: decodes the 8-byte block at streamIndex into 3-byte RGB pixels, row i
   * of the block at dataIndex + 3 * i * width, and returns the index after the block. A
   * block that runs past the stream or writes past the buffer throws.
   */
  method Dxt1Decode(stream: seq<byte>, data: array<byte>, streamIndex: nat, dataIndex: u32, width: u32)
    returns (r: Result<nat>)
    modifies data
    ensures r.Ok? <==> streamIndex + 8 <= |stream| && Fits(dataIndex, width, 3, 0, data.Length)
    ensures r.Err? ==> r == Err(IndexOutOfRange) && data[..] == old(data[..])
    ensures r.Ok? ==> r.value == streamIndex + 8
    ensures r.Ok? ==> data[..] == AfterRows(old(data[..]), dataIndex, width, 3, 0, Dxt1Pixels(stream, streamIndex), 4)
  {
    if streamIndex + 8 > |stream| || !Fits(dataIndex, width, 3, 0, data.Length) {
      return Err(IndexOutOfRange);
    }
    var color0 := U16(stream, streamIndex);
    var color1 := U16(stream, streamIndex + 2);
    var colors := Dxt1Colors(color0, color1);
    RgbBlock(stream, streamIndex + 4, colors, data, dataIndex, width);
    return Ok(streamIndex + 8);
  }

  // ---------------------------------------------------------------------------------------
  // DXT3: explicit 4-bit alpha
  // ---------------------------------------------------------------------------------------

  function Rgba(c: Color888, a: byte): seq<byte>
  {
    [c.r, c.g, c.b, a]
  }

  /** `a = (rowAlpha >> shift) & 0x0f; a |= a << 4`: the 4-bit alpha copied into both nibbles. */
  function Alpha4(rowAlpha: u16, shift: nat): byte
  {
    17 * (rowAlpha / Float32.Pow2(shift) % 16)
  }

  /** Both nibbles of a DXT3 alpha hold the 4-bit value; 0 stays transparent and 15 becomes opaque 255. */
  lemma Alpha4Nibbles(rowAlpha: u16, shift: nat)
    ensures var a := Alpha4(rowAlpha, shift);
            && a / 16 == a % 16 == rowAlpha / Float32.Pow2(shift) % 16
            && (a == 0 <==> rowAlpha / Float32.Pow2(shift) % 16 == 0)
            && (a == 255 <==> rowAlpha / Float32.Pow2(shift) % 16 == 15)
  {
  }

  /** The colour table of a DXT3 or DXT5 block at s: always the four-colour one, from the colours at s + 8. */
  function Colors4(stream: seq<byte>, s: nat): (cs: seq<Color888>)
    requires s + 12 <= |stream|
    ensures cs == Palette4(U16(stream, s + 8), U16(stream, s + 10))
  {
    Palette4(U16(stream, s + 8), U16(stream, s + 10))
  }

  /**
   * Pixel j of row i of a DXT3 block at s with colour table colors: colour `(row >> 2j) & 3`,
   * the row's code byte at s + 12 + i, and alpha nibble j of the 16-bit alpha row at s + 2i.
   */
  function Dxt3Pixel(colors: seq<Color888>, stream: seq<byte>, s: nat, i: nat, j: nat): seq<byte>
    requires |colors| == 4 && s + 16 <= |stream| && i < 4
  {
    Rgba(colors[Code2(stream[s + 12 + i], 2 * j)], Alpha4(U16(stream, s + 2 * i), 4 * j))
  }

  /** The 16 pixels of a DXT3 block at s with colour table colors, row by row. */
  function Dxt3Rows(colors: seq<Color888>, stream: seq<byte>, s: nat): (px: seq<seq<byte>>)
    requires |colors| == 4 && s + 16 <= |stream|
    ensures Shaped(4, 0, px)
  {
    seq(16, q requires 0 <= q < 16 => Dxt3Pixel(colors, stream, s, q / 4, q % 4))
  }

  /** The 16 pixels of the DXT3 block at s: its own colour table and alpha rows. */
  function Dxt3Pixels(stream: seq<byte>, s: nat): (px: seq<seq<byte>>)
    requires s + 16 <= |stream|
    ensures Shaped(4, 0, px)
  {
    Dxt3Rows(Colors4(stream, s), stream, s)
  }

  lemma Dxt3PixelAt(colors: seq<Color888>, stream: seq<byte>, s: nat, i: nat, j: nat)
    requires |colors| == 4 && s + 16 <= |stream| && i < 4 && j < 4
    ensures Dxt3Rows(colors, stream, s)[4 * i + j] == Dxt3Pixel(colors, stream, s, i, j)
  {
    assert (4 * i + j) / 4 == i && (4 * i + j) % 4 == j;
  }

  /** Pixel (i, j) of an RGBA block: `data[dataIndex++] = r; ... g; ... b; ... alpha`. */
  method PutRgba(data: array<byte>, di: u32, col: Color888, a: byte,
                 ghost d0: u32, ghost width: u32, ghost px: seq<seq<byte>>, ghost i: nat, ghost j: nat)
    returns (next: u32)
    requires Shaped(4, 0, px) && i < 4 && j < 4 && px[4 * i + j] == Rgba(col, a)
    requires di == Pos(d0, width, 4, i, j, 0) && PixelFits(d0, width, 4, 0, i, j, data.Length)
    modifies data
    ensures next == Pos(d0, width, 4, i, j + 1, 0)
    ensures data[..] == AfterChannels(old(data[..]), d0, width, 4, 0, px, i, j, 4)
  {
    ghost var s := data[..];
    next := PutChannel(data, di, col.r, s, d0, width, 4, 0, px, i, j, 0);
    next := PutChannel(data, next, col.g, s, d0, width, 4, 0, px, i, j, 1);
    next := PutChannel(data, next, col.b, s, d0, width, 4, 0, px, i, j, 2);
    next := PutChannel(data, next, a, s, d0, width, 4, 0, px, i, j, 3);
    PosPixel(d0, width, 4, i, j);
  }

  /**
   * One row of a DXT3 block: for j = 0, 2, 4, 6 the alpha nibble at `rowAlpha >> 2j` and the
   * colour code `(rowVal >> j) & 3` make the next pixel.
   */
  method Dxt3Row(data: array<byte>, di: u32, rowVal: byte, rowAlpha: u16, colors: seq<Color888>,
                 ghost d0: u32, ghost width: u32, ghost px: seq<seq<byte>>, ghost i: nat)
    returns (next: u32)
    requires |colors| == 4 && Shaped(4, 0, px) && i < 4
    requires forall j :: 0 <= j < 4 ==> px[4 * i + j] == Rgba(colors[Code2(rowVal, 2 * j)], Alpha4(rowAlpha, 4 * j))
    requires di == Pos(d0, width, 4, i, 0, 0) && RowFits(d0, width, 4, 0, i, data.Length)
    modifies data
    ensures next == Pos(d0, width, 4, i, 4, 0)
    ensures data[..] == AfterPixels(old(data[..]), d0, width, 4, 0, px, i, 4)
  {
    ghost var s := data[..];
    next := di;
    var j := 0;
    ghost var p := 0;
    while j < 8
      invariant 0 <= p <= 4 && j == 2 * p
      invariant next == Pos(d0, width, 4, i, p, 0)
      invariant data[..] == AfterPixels(s, d0, width, 4, 0, px, i, p)
    {
      var currentAlpha := Alpha4(rowAlpha, j * 2);
      var col := colors[Code2(rowVal, j)];
      assert PixelFits(d0, width, 4, 0, i, p, data.Length);
      next := PutRgba(data, next, col, currentAlpha, d0, width, px, i, p);
      j, p := j + 2, p + 1;
    }
  }

  /**
   * One pass of the row loop of `Dxt3Dds.Decode`: row i from its code byte and its alpha
   * row, then the uint step `dataIndex += 4 * (width - 4)` to the next image row.
   */
  method Dxt3BlockRow(stream: seq<byte>, s: nat, colors: seq<Color888>, data: array<byte>, di: u32,
                      ghost dataIndex: u32, width: u32, i: nat)
    returns (next: u32)
    requires |colors| == 4 && s + 16 <= |stream| && i < 4 && Fits(dataIndex, width, 4, 0, data.Length)
    requires di == Pos(dataIndex, width, 4, i, 0, 0)
    modifies data
    ensures next == Pos(dataIndex, width, 4, i + 1, 0, 0)
    ensures data[..] == AfterPixels(old(data[..]), dataIndex, width, 4, 0, Dxt3Rows(colors, stream, s), i, 4)
  {
    ghost var px := Dxt3Rows(colors, stream, s);
    var rowVal := stream[s + 12 + i];
    var rowAlpha := U16(stream, s + 2 * i);
    assert RowFits(dataIndex, width, 4, 0, i, data.Length);
    forall j | 0 <= j < 4
      ensures px[4 * i + j] == Rgba(colors[Code2(rowVal, 2 * j)], Alpha4(rowAlpha, 4 * j))
    {
      Dxt3PixelAt(colors, stream, s, i, j);
    }
    next := Dxt3Row(data, di, rowVal, rowAlpha, colors, dataIndex, width, px, i);
    next := NextRow(next, 4, dataIndex, width, i);
  }

  /**
   * The row loop of `Dxt3Dds.Decode`: the alpha rows start at s, the code bytes at s + 12;
   * returns the index after the block.
   */
  method Dxt3Block(stream: seq<byte>, s: nat, colors: seq<Color888>, data: array<byte>, dataIndex: u32, width: u32)
    returns (next: nat)
    requires |colors| == 4 && s + 16 <= |stream| && Fits(dataIndex, width, 4, 0, data.Length)
    modifies data
    ensures next == s + 16
    ensures data[..] == AfterRows(old(data[..]), dataIndex, width, 4, 0, Dxt3Rows(colors, stream, s), 4)
  {
    ghost var s0 := data[..];
    next := s + 12;
    var di: u32 := dataIndex;
    var i := 0;
    while i < 4
      invariant 0 <= i <= 4 && next == s + 12 + i
      invariant di == Pos(dataIndex, width, 4, i, 0, 0)
      invariant data[..] == AfterRows(s0, dataIndex, width, 4, 0, Dxt3Rows(colors, stream, s), i)
    {
      di := Dxt3BlockRow(stream, s, colors, data, di, dataIndex, width, i);
      next := next + 1;
      i := i + 1;
    }
  }

  /**
   * `Dxt3Dds.Decode`: decodes the 16-byte block at streamIndex into 4-byte RGBA pixels and
   * returns the index after the block. A block that runs past the stream or writes past the
   * buffer throws.
   */
  method Dxt3Decode(stream: seq<byte>, data: array<byte>, streamIndex: nat, dataIndex: u32, width: u32)
    returns (r: Result<nat>)
    modifies data
    ensures r.Ok? <==> streamIndex + 16 <= |stream| && Fits(dataIndex, width, 4, 0, data.Length)
    ensures r.Err? ==> r == Err(IndexOutOfRange) && data[..] == old(data[..])
    ensures r.Ok? ==> r.value == streamIndex + 16
    ensures r.Ok? ==> data[..] == AfterRows(old(data[..]), dataIndex, width, 4, 0, Dxt3Pixels(stream, streamIndex), 4)
  {
    if streamIndex + 16 > |stream| || !Fits(dataIndex, width, 4, 0, data.Length) {
      return Err(IndexOutOfRange);
    }
    var color0 := U16(stream, streamIndex + 8);
    var color1 := U16(stream, streamIndex + 10);
    var next := Dxt3Block(stream, streamIndex, Palette4(color0, color1), data, dataIndex, width);
    return Ok(next);
  }

  // ---------------------------------------------------------------------------------------
  // DXT5: interpolated alpha
  // ---------------------------------------------------------------------------------------

  /**
   * Pixel j of row i of a DXT5 block at s: colour `(row >> 2j) & 3` of the table, with the
   * row's code byte at s + 12 + i, and the alpha table entry that the 3-bit index
   * `(codes >> (12i + 3j)) & 7` selects.
   */
  function Dxt5Pixel(colors: seq<Color888>, alpha: seq<byte>, codes: nat, stream: seq<byte>, s: nat, i: nat, j: nat): seq<byte>
    requires |colors| == 4 && |alpha| == 8 && s + 16 <= |stream| && i < 4
  {
    Rgba(colors[Code2(stream[s + 12 + i], 2 * j)], alpha[Code3(codes, 12 * i + 3 * j)])
  }

  /** The 16 pixels of a DXT5 block at s with the given colour and alpha tables, row by row. */
  function Dxt5Rows(colors: seq<Color888>, alpha: seq<byte>, codes: nat, stream: seq<byte>, s: nat): (px: seq<seq<byte>>)
    requires |colors| == 4 && |alpha| == 8 && s + 16 <= |stream|
    ensures Shaped(4, 0, px)
  {
    seq(16, q requires 0 <= q < 16 => Dxt5Pixel(colors, alpha, codes, stream, s, q / 4, q % 4))
  }

  /**
   * The 16 pixels of the DXT5 block at s: the alpha gradient of the endpoints at s, the 48
   * index bits at s + 2, the four-colour table at s + 8 and the code bytes at s + 12.
   */
  function Dxt5Pixels(stream: seq<byte>, s: nat): (px: seq<seq<byte>>)
    requires s + 16 <= |stream|
    ensures Shaped(4, 0, px)
  {
    Dxt5Rows(Colors4(stream, s), Gradient(stream[s], stream[s + 1]), Codes48(stream, s + 2), stream, s)
  }

  lemma Dxt5PixelAt(colors: seq<Color888>, alpha: seq<byte>, codes: nat, stream: seq<byte>, s: nat, i: nat, j: nat)
    requires |colors| == 4 && |alpha| == 8 && s + 16 <= |stream| && i < 4 && j < 4
    ensures Dxt5Rows(colors, alpha, codes, stream, s)[4 * i + j] == Dxt5Pixel(colors, alpha, codes, stream, s, i, j)
  {
    assert (4 * i + j) / 4 == i && (4 * i + j) % 4 == j;
  }

  /**
   * One row of a DXT5 block: for j = 0..3 the colour code `(rowVal >> 2j) & 3` and the alpha
   * index `(alphaCodes >> (alphaShift + 3j)) & 7` make the next pixel.
   */
  method Dxt5Row(data: array<byte>, di: u32, rowVal: byte, alphaShift: nat, alphaCodes: nat, alpha: array<byte>,
                 colors: seq<Color888>, ghost table: seq<byte>,
                 ghost d0: u32, ghost width: u32, ghost px: seq<seq<byte>>, ghost i: nat)
    returns (next: u32)
    requires |colors| == 4 && alpha != data && alpha[..] == table && |table| == 8 && Shaped(4, 0, px) && i < 4
    requires forall j :: 0 <= j < 4 ==>
               px[4 * i + j] == Rgba(colors[Code2(rowVal, 2 * j)], table[Code3(alphaCodes, alphaShift + 3 * j)])
    requires di == Pos(d0, width, 4, i, 0, 0) && RowFits(d0, width, 4, 0, i, data.Length)
    modifies data
    ensures next == Pos(d0, width, 4, i, 4, 0)
    ensures data[..] == AfterPixels(old(data[..]), d0, width, 4, 0, px, i, 4)
  {
    ghost var s := data[..];
    next := di;
    var j := 0;
    while j < 4
      invariant 0 <= j <= 4
      invariant next == Pos(d0, width, 4, i, j, 0)
      invariant data[..] == AfterPixels(s, d0, width, 4, 0, px, i, j)
      invariant alpha[..] == table
    {
      var alphaIndex := Code3(alphaCodes, alphaShift + 3 * j);
      var col := colors[Code2(rowVal, 2 * j)];
      assert PixelFits(d0, width, 4, 0, i, j, data.Length);
      assert px[4 * i + j] == Rgba(col, table[alphaIndex]);
      next := PutRgba(data, next, col, alpha[alphaIndex], d0, width, px, i, j);
      j := j + 1;
    }
  }

  /**
   * One pass of the row loop of `Dxt5Dds.Decode`: row i, its alpha indices at bit
   * alphaShift = 12 i, then the uint step `dataIndex += 4 * (width - 4)`.
   */
  method Dxt5BlockRow(stream: seq<byte>, s: nat, colors: seq<Color888>, alpha: array<byte>, alphaCodes: nat,
                      data: array<byte>, di: u32, ghost dataIndex: u32, width: u32, alphaShift: nat, i: nat)
    returns (next: u32)
    requires |colors| == 4 && alpha.Length == 8 && alpha != data && s + 16 <= |stream|
    requires i < 4 && alphaShift == 12 * i && Fits(dataIndex, width, 4, 0, data.Length)
    requires di == Pos(dataIndex, width, 4, i, 0, 0)
    modifies data
    ensures next == Pos(dataIndex, width, 4, i + 1, 0, 0)
    ensures data[..] == AfterPixels(old(data[..]), dataIndex, width, 4, 0, Dxt5Rows(colors, alpha[..], alphaCodes, stream, s), i, 4)
  {
    ghost var px := Dxt5Rows(colors, alpha[..], alphaCodes, stream, s);
    var rowVal := stream[s + 12 + i];
    assert RowFits(dataIndex, width, 4, 0, i, data.Length);
    forall j | 0 <= j < 4
      ensures px[4 * i + j] == Rgba(colors[Code2(rowVal, 2 * j)], alpha[..][Code3(alphaCodes, alphaShift + 3 * j)])
    {
      Dxt5PixelAt(colors, alpha[..], alphaCodes, stream, s, i, j);
    }
    next := Dxt5Row(data, di, rowVal, alphaShift, alphaCodes, alpha, colors, alpha[..], dataIndex, width, px, i);
    next := NextRow(next, 4, dataIndex, width, i);
  }

  /** The row loop of `Dxt5Dds.Decode`: alphaShift runs 0, 12, 24, 36 over the four rows. */
  method Dxt5Block(stream: seq<byte>, s: nat, colors: seq<Color888>, alpha: array<byte>, alphaCodes: nat,
                   data: array<byte>, dataIndex: u32, width: u32)
    requires |colors| == 4 && alpha.Length == 8 && alpha != data && s + 16 <= |stream|
    requires Fits(dataIndex, width, 4, 0, data.Length)
    modifies data
    ensures data[..] == AfterRows(old(data[..]), dataIndex, width, 4, 0, Dxt5Rows(colors, alpha[..], alphaCodes, stream, s), 4)
  {
    ghost var s0 := data[..];
    ghost var table := alpha[..];
    ghost var px := Dxt5Rows(colors, table, alphaCodes, stream, s);
    var di: u32 := dataIndex;
    var alphaShift := 0;
    var i := 0;
    while alphaShift < 48
      invariant 0 <= i <= 4 && alphaShift == 12 * i
      invariant alpha[..] == table
      invariant di == Pos(dataIndex, width, 4, i, 0, 0)
      invariant data[..] == AfterRows(s0, dataIndex, width, 4, 0, px, i)
    {
      di := Dxt5BlockRow(stream, s, colors, alpha, alphaCodes, data, di, dataIndex, width, alphaShift, i);
      alphaShift, i := alphaShift + 12, i + 1;
    }
  }

  /**
   * `Dxt5Dds.Decode`: fills the decoder's alpha table from the endpoints at streamIndex, then
   * decodes the 16-byte block into 4-byte RGBA pixels and returns the index after the block.
   * A block that runs past the stream or writes past the buffer throws.
   */
  method Dxt5Decode(stream: seq<byte>, alpha: array<byte>, data: array<byte>, streamIndex: nat, dataIndex: u32, width: u32)
    returns (r: Result<nat>)
    requires alpha.Length == 8 && alpha != data
    modifies alpha, data
    ensures r.Ok? <==> streamIndex + 16 <= |stream| && Fits(dataIndex, width, 4, 0, data.Length)
    ensures r.Err? ==> r == Err(IndexOutOfRange) && data[..] == old(data[..]) && alpha[..] == old(alpha[..])
    ensures r.Ok? ==> r.value == streamIndex + 16 && alpha[..] == Gradient(stream[streamIndex], stream[streamIndex + 1])
    ensures r.Ok? ==> data[..] == AfterRows(old(data[..]), dataIndex, width, 4, 0, Dxt5Pixels(stream, streamIndex), 4)
  {
    if streamIndex + 16 > |stream| || !Fits(dataIndex, width, 4, 0, data.Length) {
      return Err(IndexOutOfRange);
    }
    var g := ExtractGradient(alpha, stream, streamIndex);
    var si := g.value;
    var alphaCodes := Codes48(stream, si);
    var color0 := U16(stream, si + 6);
    var color1 := U16(stream, si + 8);
    Dxt5Block(stream, streamIndex, Palette4(color0, color1), alpha, alphaCodes, data, dataIndex, width);
    return Ok(streamIndex + 16);
  }

  // ---------------------------------------------------------------------------------------
  // BC5: two interpolated channels
  // ---------------------------------------------------------------------------------------

  /**
   * Pixel j of row i of a BC5 block: the blue byte is skipped, green is the second gradient's
   * entry and red the first gradient's entry at the 3-bit indices `(codes >> (12i + 3j)) & 7`.
   */
  function Bc5Pixel(first: seq<byte>, firstCodes: nat, second: seq<byte>, secondCodes: nat, i: nat, j: nat): seq<byte>
    requires |first| == 8 && |second| == 8
  {
    [second[Code3(secondCodes, 12 * i + 3 * j)], first[Code3(firstCodes, 12 * i + 3 * j)]]
  }

  /** The 16 pixels of a BC5 block with the given gradients and index bits, row by row. */
  function Bc5Rows(first: seq<byte>, firstCodes: nat, second: seq<byte>, secondCodes: nat): (px: seq<seq<byte>>)
    requires |first| == 8 && |second| == 8
    ensures Shaped(3, 1, px)
  {
    seq(16, q requires 0 <= q < 16 => Bc5Pixel(first, firstCodes, second, secondCodes, q / 4, q % 4))
  }

  /**
   * The 16 pixels of the BC5 block at s: the first gradient and its 48 index bits at s, the
   * second gradient and its index bits at s + 8.
   */
  function Bc5Pixels(stream: seq<byte>, s: nat): (px: seq<seq<byte>>)
    requires s + 16 <= |stream|
    ensures Shaped(3, 1, px)
  {
    Bc5Rows(Gradient(stream[s], stream[s + 1]), Codes48(stream, s + 2),
            Gradient(stream[s + 8], stream[s + 9]), Codes48(stream, s + 10))
  }

  lemma Bc5PixelAt(first: seq<byte>, firstCodes: nat, second: seq<byte>, secondCodes: nat, i: nat, j: nat)
    requires |first| == 8 && |second| == 8 && i < 4 && j < 4
    ensures Bc5Rows(first, firstCodes, second, secondCodes)[4 * i + j] == Bc5Pixel(first, firstCodes, second, secondCodes, i, j)
  {
    assert (4 * i + j) / 4 == i && (4 * i + j) % 4 == j;
  }

  /** Pixel (i, j) of a BC5 block: `dataIndex++` past blue, then green and red. */
  method PutBc5(data: array<byte>, di: u32, green: byte, red: byte,
                ghost d0: u32, ghost width: u32, ghost px: seq<seq<byte>>, ghost i: nat, ghost j: nat)
    returns (next: u32)
    requires Shaped(3, 1, px) && i < 4 && j < 4 && px[4 * i + j] == [green, red]
    requires di == Pos(d0, width, 3, i, j, 0) && PixelFits(d0, width, 3, 1, i, j, data.Length)
    modifies data
    ensures next == Pos(d0, width, 3, i, j + 1, 0)
    ensures data[..] == AfterChannels(old(data[..]), d0, width, 3, 1, px, i, j, 2)
  {
    ghost var s := data[..];
    PosNext(d0, width, 3, i, j, 0);
    next := (di + 1) % Word;
    next := PutChannel(data, next, green, s, d0, width, 3, 1, px, i, j, 1);
    next := PutChannel(data, next, red, s, d0, width, 3, 1, px, i, j, 2);
    PosPixel(d0, width, 3, i, j);
  }

  /**
   * One row of a BC5 block: for j = 0..3 the indices at bit alphaShift + 3j of the two index
   * words pick the pixel's green and red from the two gradients.
   */
  method Bc5Row(data: array<byte>, di: u32, alphaShift: nat, firstCodes: nat, secondCodes: nat,
                firstGradient: array<byte>, secondGradient: array<byte>, ghost first: seq<byte>, ghost second: seq<byte>,
                ghost d0: u32, ghost width: u32, ghost px: seq<seq<byte>>, ghost i: nat)
    returns (next: u32)
    requires firstGradient != data && secondGradient != data
    requires firstGradient[..] == first && secondGradient[..] == second && |first| == 8 && |second| == 8
    requires Shaped(3, 1, px) && i < 4
    requires forall j :: 0 <= j < 4 ==>
               px[4 * i + j] == [second[Code3(secondCodes, alphaShift + 3 * j)], first[Code3(firstCodes, alphaShift + 3 * j)]]
    requires di == Pos(d0, width, 3, i, 0, 0) && RowFits(d0, width, 3, 1, i, data.Length)
    modifies data
    ensures next == Pos(d0, width, 3, i, 4, 0)
    ensures data[..] == AfterPixels(old(data[..]), d0, width, 3, 1, px, i, 4)
  {
    ghost var s := data[..];
    next := di;
    var j := 0;
    while j < 4
      invariant 0 <= j <= 4
      invariant next == Pos(d0, width, 3, i, j, 0)
      invariant data[..] == AfterPixels(s, d0, width, 3, 1, px, i, j)
      invariant firstGradient[..] == first && secondGradient[..] == second
    {
      var firstIndex := Code3(firstCodes, alphaShift + 3 * j);
      var secondIndex := Code3(secondCodes, alphaShift + 3 * j);
      assert PixelFits(d0, width, 3, 1, i, j, data.Length);
      assert px[4 * i + j] == [second[secondIndex], first[firstIndex]];
      next := PutBc5(data, next, secondGradient[secondIndex], firstGradient[firstIndex], d0, width, px, i, j);
      j := j + 1;
    }
  }

  /** One pass of the row loop of `Bc5Dds.Decode`: row i, then `dataIndex += 3 * (width - 4)`. */
  method Bc5BlockRow(firstGradient: array<byte>, firstCodes: nat, secondGradient: array<byte>, secondCodes: nat,
                     data: array<byte>, di: u32, ghost dataIndex: u32, width: u32, alphaShift: nat, ghost i: nat)
    returns (next: u32)
    requires firstGradient.Length == 8 && secondGradient.Length == 8
    requires firstGradient != data && secondGradient != data
    requires i < 4 && alphaShift == 12 * i && Fits(dataIndex, width, 3, 1, data.Length)
    requires di == Pos(dataIndex, width, 3, i, 0, 0)
    modifies data
    ensures next == Pos(dataIndex, width, 3, i + 1, 0, 0)
    ensures data[..] == AfterPixels(old(data[..]), dataIndex, width, 3, 1,
                                    Bc5Rows(firstGradient[..], firstCodes, secondGradient[..], secondCodes), i, 4)
  {
    ghost var first, second := firstGradient[..], secondGradient[..];
    ghost var px := Bc5Rows(first, firstCodes, second, secondCodes);
    assert RowFits(dataIndex, width, 3, 1, i, data.Length);
    forall j | 0 <= j < 4
      ensures px[4 * i + j] == [second[Code3(secondCodes, alphaShift + 3 * j)], first[Code3(firstCodes, alphaShift + 3 * j)]]
    {
      Bc5PixelAt(first, firstCodes, second, secondCodes, i, j);
    }
    next := Bc5Row(data, di, alphaShift, firstCodes, secondCodes, firstGradient, secondGradient, first, second,
                   dataIndex, width, px, i);
    next := NextRow(next, 3, dataIndex, width, i);
  }

  /** The row loop of `Bc5Dds.Decode`: alphaShift runs 0, 12, 24, 36 over the four rows. */
  method Bc5Block(firstGradient: array<byte>, firstCodes: nat, secondGradient: array<byte>, secondCodes: nat,
                  data: array<byte>, dataIndex: u32, width: u32)
    requires firstGradient.Length == 8 && secondGradient.Length == 8
    requires firstGradient != data && secondGradient != data
    requires Fits(dataIndex, width, 3, 1, data.Length)
    modifies data
    ensures data[..] == AfterRows(old(data[..]), dataIndex, width, 3, 1,
                                  Bc5Rows(firstGradient[..], firstCodes, secondGradient[..], secondCodes), 4)
  {
    ghost var s0 := data[..];
    ghost var first, second := firstGradient[..], secondGradient[..];
    var di: u32 := dataIndex;
    var alphaShift := 0;
    ghost var i := 0;
    while alphaShift < 48
      invariant 0 <= i <= 4 && alphaShift == 12 * i
      invariant firstGradient[..] == first && secondGradient[..] == second
      invariant di == Pos(dataIndex, width, 3, i, 0, 0)
      invariant data[..] == AfterRows(s0, dataIndex, width, 3, 1, Bc5Rows(first, firstCodes, second, secondCodes), i)
    {
      di := Bc5BlockRow(firstGradient, firstCodes, secondGradient, secondCodes, data, di, dataIndex, width, alphaShift, i);
      alphaShift, i := alphaShift + 12, i + 1;
    }
  }

  /**
   * `Bc5Dds.Decode`: fills the decoder's two gradient tables from the endpoints at
   * streamIndex and streamIndex + 8, then writes green and red of each 3-byte pixel, leaving
   * blue untouched, and returns the index after the 16-byte block. A block that runs past
   * the stream or writes past the buffer throws.
   */
  method Bc5Decode(stream: seq<byte>, firstGradient: array<byte>, secondGradient: array<byte>, data: array<byte>,
                   streamIndex: nat, dataIndex: u32, width: u32)
    returns (r: Result<nat>)
    requires firstGradient.Length == 8 && secondGradient.Length == 8
    requires firstGradient != secondGradient && firstGradient != data && secondGradient != data
    modifies firstGradient, secondGradient, data
    ensures r.Ok? <==> streamIndex + 16 <= |stream| && Fits(dataIndex, width, 3, 1, data.Length)
    ensures r.Err? ==> r == Err(IndexOutOfRange) && data[..] == old(data[..])
    ensures r.Err? ==> firstGradient[..] == old(firstGradient[..]) && secondGradient[..] == old(secondGradient[..])
    ensures r.Ok? ==> r.value == streamIndex + 16
    ensures r.Ok? ==> firstGradient[..] == Gradient(stream[streamIndex], stream[streamIndex + 1])
    ensures r.Ok? ==> secondGradient[..] == Gradient(stream[streamIndex + 8], stream[streamIndex + 9])
    ensures r.Ok? ==> data[..] == AfterRows(old(data[..]), dataIndex, width, 3, 1, Bc5Pixels(stream, streamIndex), 4)
  {
    if streamIndex + 16 > |stream| || !Fits(dataIndex, width, 3, 1, data.Length) {
      return Err(IndexOutOfRange);
    }
    var g := ExtractGradient(firstGradient, stream, streamIndex);
    var si := g.value;
    var firstCodes := Codes48(stream, si);
    g := ExtractGradient(secondGradient, stream, si + 6);
    si := g.value;
    var secondCodes := Codes48(stream, si);
    Bc5Block(firstGradient, firstCodes, secondGradient, secondCodes, data, dataIndex, width);
    return Ok(si + 6);
  }
}
