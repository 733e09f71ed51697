/// Pfim's DirectDraw Surface container: the 128-byte header and its checks, the decoder a
/// FourCC code or a DX10 format selects, the row stride, and the uncompressed decoder's
/// layout, buffer size and red/blue channel swap.
module PfimHeader {
  import opened Outcome
  import opened Bytes
  import Cursor
  import CsMath

  // ---------------------------------------------------------------------------------------
  // The header
  // ---------------------------------------------------------------------------------------

  /** The four bytes "DDS " that open every DirectDraw Surface, read as a little-endian int. */
  const DdsMagic := 542327876
  /** The header's size field: the header without the magic. */
  const HeaderSize := 124
  /** The pixel format's size field. */
  const PixelFormatSize := 32

  const NotDds := "Not a valid DDS"
  const BadHeaderSize := "Not a valid header size"
  const BadPixelFormatSize := "Expected pixel size to be 32"

  /** DDS_PIXELFORMAT: eight little-endian words. */
  datatype PixelFormat = PixelFormat(size: u32, flags: u32, fourCC: u32, rgbBitCount: u32,
                                     rMask: u32, gMask: u32, bMask: u32, aMask: u32)

  /** DDS_HEADER as the reader keeps it (the magic is checked, not kept). */
  datatype DdsHeader = DdsHeader(size: u32, flags: u32, height: u32, width: u32,
                                 pitchOrLinearSize: u32, depth: u32, mipMapCount: u32,
                                 reserved1: seq<u32>, pixelFormat: PixelFormat,
                                 caps: u32, caps2: u32, caps3: u32, caps4: u32, reserved2: u32)

  /** A header the reader can have produced: the two size fields hold their constants. */
  predicate WellFormed(h: DdsHeader)
  {
    h.size == HeaderSize && h.pixelFormat.size == PixelFormatSize && |h.reserved1| == 11
  }

  /**
   * The pixel format at s: its size word must be 32; a stream that ends inside it fails
   * at the first word it lacks.
   */
  function PixelFormatAt(d: seq<byte>, s: nat): Result<PixelFormat>
  {
    if |d| < s + 4 then Err(EndOfStream)
    else if U32(d, s) != PixelFormatSize then Err(BadPixelFormatSize)
    else if |d| < s + 32 then Err(EndOfStream)
    else Ok(PixelFormat(U32(d, s), U32(d, s + 4), U32(d, s + 8), U32(d, s + 12),
                        U32(d, s + 16), U32(d, s + 20), U32(d, s + 24), U32(d, s + 28)))
  }

  /**
   * The header at p, with the reader's checks in the reader's order: the magic, the header
   * size, the pixel format size; a stream that ends early fails at the word it lacks.
   */
  function HeaderAt(d: seq<byte>, p: nat): Result<DdsHeader>
  {
    if |d| < p + 4 then Err(EndOfStream)
    else if I32(d, p) != DdsMagic then Err(NotDds)
    else if |d| < p + 8 then Err(EndOfStream)
    else if U32(d, p + 4) != HeaderSize then Err(BadHeaderSize)
    else if |d| < p + 76 then Err(EndOfStream)
    else match PixelFormatAt(d, p + 76)
      case Err(e) => Err(e)
      case Ok(pf) =>
        if |d| < p + 128 then Err(EndOfStream)
        else Ok(DdsHeader(U32(d, p + 4), U32(d, p + 8), U32(d, p + 12), U32(d, p + 16),
                          U32(d, p + 20), U32(d, p + 24), U32(d, p + 28),
                          seq(11, k requires 0 <= k < 11 => U32(d, p + 32 + 4 * k)), pf,
                          U32(d, p + 108), U32(d, p + 112), U32(d, p + 116), U32(d, p + 120),
                          U32(d, p + 124)))
  }

  method ReadPixelFormat(d: seq<byte>, s: nat) returns (r: Result<PixelFormat>, q: nat)
    ensures r == PixelFormatAt(d, s)
    ensures r.Ok? ==> q == s + 32
  {
    var size, flags, fourCC, bits, rm, gm, bm, am;
    size, q :- Cursor.ReadU32(d, s);
    if size != PixelFormatSize {
      return Err(BadPixelFormatSize), q;
    }
    flags, q :- Cursor.ReadU32(d, q);
    fourCC, q :- Cursor.ReadU32(d, q);
    bits, q :- Cursor.ReadU32(d, q);
    rm, q :- Cursor.ReadU32(d, q);
    gm, q :- Cursor.ReadU32(d, q);
    bm, q :- Cursor.ReadU32(d, q);
    am, q :- Cursor.ReadU32(d, q);
    r := Ok(PixelFormat(size, flags, fourCC, bits, rm, gm, bm, am));
  }

  /** DdsHeader's constructor: reads the header at p and returns the position after it. */
  method ReadHeader(d: seq<byte>, p: nat) returns (r: Result<DdsHeader>, q: nat)
    ensures r == HeaderAt(d, p)
    ensures r.Ok? ==> q == p + 128
  {
    var magic, size, flags, height, width, pitch, depth, mips;
    magic, q :- Cursor.ReadI32(d, p);
    if magic != DdsMagic {
      return Err(NotDds), q;
    }
    size, q :- Cursor.ReadU32(d, q);
    if size != HeaderSize {
      return Err(BadHeaderSize), q;
    }
    flags, q :- Cursor.ReadU32(d, q);
    height, q :- Cursor.ReadU32(d, q);
    width, q :- Cursor.ReadU32(d, q);
    pitch, q :- Cursor.ReadU32(d, q);
    depth, q :- Cursor.ReadU32(d, q);
    mips, q :- Cursor.ReadU32(d, q);
    var reserved1: seq<u32> := [];
    var i := 0;
    while i < 11
      invariant 0 <= i <= 11 && q == p + 32 + 4 * i <= |d| && |reserved1| == i
      invariant forall k :: 0 <= k < i ==> reserved1[k] == U32(d, p + 32 + 4 * k)
    {
      var w;
      w, q :- Cursor.ReadU32(d, q);
      reserved1 := reserved1 + [w];
      i := i + 1;
    }
    assert reserved1 == seq(11, k requires 0 <= k < 11 => U32(d, p + 32 + 4 * k));
    var pf;
    pf, q :- ReadPixelFormat(d, q);
    var caps, caps2, caps3, caps4, reserved2;
    caps, q :- Cursor.ReadU32(d, q);
    caps2, q :- Cursor.ReadU32(d, q);
    caps3, q :- Cursor.ReadU32(d, q);
    caps4, q :- Cursor.ReadU32(d, q);
    reserved2, q :- Cursor.ReadU32(d, q);
    r := Ok(DdsHeader(size, flags, height, width, pitch, depth, mips, reserved1, pf,
                      caps, caps2, caps3, caps4, reserved2));
  }

  // ---------------------------------------------------------------------------------------
  // Writing a header back: the reader's inverse
  // ---------------------------------------------------------------------------------------

  /** A run of little-endian words. */
  function Words(ws: seq<u32>): (s: seq<byte>)
    ensures |s| == 4 * |ws|
  {
    if ws == [] then [] else Words(ws[..|ws| - 1]) + LE32(ws[|ws| - 1])
  }

  /** The header's 32 words in file order, the magic first. */
  function HeaderWords(h: DdsHeader): seq<u32>
  {
    var pf := h.pixelFormat;
    [DdsMagic, h.size, h.flags, h.height, h.width, h.pitchOrLinearSize, h.depth, h.mipMapCount]
    + h.reserved1
    + [pf.size, pf.flags, pf.fourCC, pf.rgbBitCount, pf.rMask, pf.gMask, pf.bMask, pf.aMask]
    + [h.caps, h.caps2, h.caps3, h.caps4, h.reserved2]
  }

  /** The 128 bytes of a header as a DDS file holds them. */
  function EncodeHeader(h: DdsHeader): (s: seq<byte>)
    requires |h.reserved1| == 11
    ensures |s| == 128
  {
    Words(HeaderWords(h))
  }

  /** Words splits around any of its words. */
  lemma {:induction false} WordsSplit(ws: seq<u32>, k: nat)
    requires k < |ws|
    ensures Words(ws) == Words(ws[..k]) + LE32(ws[k]) + Words(ws[k + 1..])
    decreases |ws|
  {
    var n := |ws| - 1;
    if k == n {
      assert ws[..k] == ws[..n];
      assert ws[k + 1..] == [];
    } else {
      WordsSplit(ws[..n], k);
      assert ws[..n][..k] == ws[..k];
      assert ws[..n][k + 1..] == ws[k + 1..n];
      assert ws[k + 1..][..|ws[k + 1..]| - 1] == ws[k + 1..n];
      assert ws[k + 1..][|ws[k + 1..]| - 1] == ws[n];
    }
  }

  /** Word k of a run reads back from byte 4k. */
  lemma WordAt(ws: seq<u32>, k: nat)
    requires k < |ws|
    ensures U32(Words(ws), 4 * k) == ws[k]
  {
    WordsSplit(ws, k);
    U32At(Words(ws[..k]), ws[k], Words(ws[k + 1..]));
  }

  /** Every word of a written header reads back from its offset. */
  lemma EncodedWords(h: DdsHeader)
    requires |h.reserved1| == 11
    ensures forall o {:trigger U32(EncodeHeader(h), o)} :: 0 <= o < 128 && o % 4 == 0 ==>
      U32(EncodeHeader(h), o) == HeaderWords(h)[o / 4]
  {
    forall o | 0 <= o < 128 && o % 4 == 0
      ensures U32(EncodeHeader(h), o) == HeaderWords(h)[o / 4]
    {
      WordAt(HeaderWords(h), o / 4);
    }
  }

  lemma EncodedPixelFormat(h: DdsHeader)
    requires WellFormed(h)
    ensures PixelFormatAt(EncodeHeader(h), 76) == Ok(h.pixelFormat)
  {
    EncodedWords(h);
  }

  lemma EncodedReserved(h: DdsHeader)
    requires |h.reserved1| == 11
    ensures seq(11, k requires 0 <= k < 11 => U32(EncodeHeader(h), 32 + 4 * k)) == h.reserved1
  {
    var e := EncodeHeader(h);
    var ws := HeaderWords(h);
    assert ws[8..19] == h.reserved1;
    forall k | 0 <= k < 11
      ensures U32(e, 32 + 4 * k) == h.reserved1[k]
    {
      WordAt(ws, 8 + k);
      assert U32(e, 32 + 4 * k) == ws[8 + k] == ws[8..19][k];
    }
  }

  /** Reading a written header gives the header back. */
  lemma HeaderRoundTrip(h: DdsHeader)
    requires WellFormed(h)
    ensures HeaderAt(EncodeHeader(h), 0) == Ok(h)
  {
    EncodedWords(h);
    EncodedPixelFormat(h);
    EncodedReserved(h);
  }

  // ---------------------------------------------------------------------------------------
  // Choosing a decoder
  // ---------------------------------------------------------------------------------------

  /** The FourCC codes Create recognises ("DXT1" and so on, read as little-endian words). */
  const FourCCNone := 0
  const FourCCDxt1 := 827611204
  const FourCCDxt2 := 844388420
  const FourCCDxt3 := 861165636
  const FourCCDxt4 := 877942852
  const FourCCDxt5 := 894720068
  const FourCCDx10 := 808540228
  const FourCCAti2 := 843666497

  const NoDxt2OrDxt4 := "Cannot support DXT2 or DXT4"
  const UnsupportedFourCC := "FourCC not supported."

  /** DDS_HEADER_DXT10, which follows the header when the FourCC is "DX10". */
  datatype Dx10Header = Dx10Header(dxgiFormat: u32, resourceDimension: u32, miscFlag: u32,
                                   arraySize: u32, miscFlags2: u32)

  function Dx10At(d: seq<byte>, s: nat): Result<Dx10Header>
  {
    if |d| < s + 20 then Err(EndOfStream)
    else Ok(Dx10Header(U32(d, s), U32(d, s + 4), U32(d, s + 8), U32(d, s + 12), U32(d, s + 16)))
  }

  /** DdsHeaderDxt10's constructor. */
  method ReadDx10(d: seq<byte>, s: nat) returns (r: Result<Dx10Header>, q: nat)
    ensures r == Dx10At(d, s)
    ensures r.Ok? ==> q == s + 20
  {
    var format, dimension, misc, arraySize, misc2;
    format, q :- Cursor.ReadU32(d, s);
    dimension, q :- Cursor.ReadU32(d, q);
    misc, q :- Cursor.ReadU32(d, q);
    arraySize, q :- Cursor.ReadU32(d, q);
    misc2, q :- Cursor.ReadU32(d, q);
    r := Ok(Dx10Header(format, dimension, misc, arraySize, misc2));
  }

  /**
   * The Dds subclass that decodes the image. An uncompressed image chosen through a DX10
   * format carries its bit count and its swap flag; one chosen by FourCC reads both from
   * the pixel format.
   */
  datatype Decoder = Dxt1 | Dxt3 | Dxt5 | Bc5
                   | Uncompressed(bitsPerPixel: Option<u32>, rgbSwapped: Option<bool>)

  /** What Create returns before decoding: the header, the decoder, the DX10 header if any. */
  datatype Dds = Dds(header: DdsHeader, decoder: Decoder, header10: Option<Dx10Header>)

  /** The DXGI formats NewDecoder accepts, by their enum values. */
  predicate IsBc1(f: u32) { 70 <= f <= 72 }
  predicate IsBc3(f: u32) { 76 <= f <= 78 }
  predicate IsBc5(f: u32) { 82 <= f <= 84 }
  predicate IsR8G8B8A8(f: u32) { 27 <= f <= 32 }
  predicate IsB8G8R8A8(f: u32) { f == 87 || f == 90 || f == 91 }

  /** DdsHeaderDxt10.NewDecoder, as written: BC3 goes to the DXT3 decoder and BC5 to the DXT5 one. */
  function NewDecoder(format: u32): (r: Result<Decoder>)
  {
    if IsBc1(format) then Ok(Dxt1)
    else if IsBc3(format) then Ok(Dxt3)
    else if IsBc5(format) then Ok(Dxt5)
    else if IsR8G8B8A8(format) then Ok(Uncompressed(Some(32), Some(true)))
    else if IsB8G8R8A8(format) then Ok(Uncompressed(Some(32), Some(false)))
    else Err(ArgumentOutOfRange)
  }

  /** The formats NewDecoder accepts are exactly the five families; the rest throw. */
  lemma NewDecoderAccepts(format: u32)
    ensures NewDecoder(format).Ok? <==>
      IsBc1(format) || IsBc3(format) || IsBc5(format) || IsR8G8B8A8(format) || IsB8G8R8A8(format)
    ensures NewDecoder(format).Err? ==> NewDecoder(format).error == ArgumentOutOfRange
    ensures NewDecoder(format).Ok? && NewDecoder(format).value.Uncompressed? ==>
      NewDecoder(format).value == Uncompressed(Some(32), Some(IsR8G8B8A8(format)))
  {
  }

  /** The block format of each block decoder, named as Direct3D's block compression names them. */
  datatype BlockFormat = BC1 | BC2 | BC3 | BC5

  function DecodesBlocks(dec: Decoder): (b: Option<BlockFormat>)
    ensures b.None? <==> dec.Uncompressed?
  {
    match dec
    case Dxt1 => Some(BC1)
    case Dxt3 => Some(BC2)
    case Dxt5 => Some(BC3)
    case Bc5 => Some(BC5)
    case Uncompressed(_, _) => None
  }

  /** The block format a DXGI format's data is stored in, if it is one NewDecoder knows. */
  function BlocksOf(format: u32): Option<BlockFormat>
  {
    if IsBc1(format) then Some(BC1)
    else if IsBc3(format) then Some(BC3)
    else if IsBc5(format) then Some(BC5)
    else None
  }

  /** A BC3 texture (DXGI_FORMAT_BC3_UNORM) is handed to the decoder of BC2 blocks. */
  lemma NewDecoderMisreadsBc3()
    ensures NewDecoder(77).Ok? && DecodesBlocks(NewDecoder(77).value) != BlocksOf(77)
  {
  }

  /** A BC5 texture (DXGI_FORMAT_BC5_UNORM) is handed to the decoder of BC3 blocks. */
  lemma NewDecoderMisreadsBc5()
    ensures NewDecoder(83).Ok? && DecodesBlocks(NewDecoder(83).value) != BlocksOf(83)
  {
  }

  /** NewDecoder with each block format sent to the decoder of that format. */
  function MatchingDecoder(format: u32): (r: Result<Decoder>)
    ensures r.Ok? <==> NewDecoder(format).Ok?
    ensures r.Ok? ==> DecodesBlocks(r.value) == BlocksOf(format)
    ensures r.Ok? && !r.value.Uncompressed? ==> r.value != Dxt3
  {
    if IsBc1(format) then Ok(Dxt1)
    else if IsBc3(format) then Ok(Dxt5)
    else if IsBc5(format) then Ok(Bc5)
    else NewDecoder(format)
  }

  /**
   * The decoder Create picks for a header, reading a DX10 header at 128 when the FourCC
   * asks for one. DXT2, DXT4 and every code Create does not list throw.
   */
  function Select(h: DdsHeader, d: seq<byte>): Result<Dds>
  {
    var cc := h.pixelFormat.fourCC;
    if cc == FourCCDxt1 then Ok(Dds(h, Dxt1, None))
    else if cc == FourCCDxt2 || cc == FourCCDxt4 then Err(NoDxt2OrDxt4)
    else if cc == FourCCDxt3 then Ok(Dds(h, Dxt3, None))
    else if cc == FourCCDxt5 then Ok(Dds(h, Dxt5, None))
    else if cc == FourCCNone then Ok(Dds(h, Uncompressed(None, None), None))
    else if cc == FourCCDx10 then
      match Dx10At(d, 128)
      case Err(e) => Err(e)
      case Ok(h10) =>
        match NewDecoder(h10.dxgiFormat)
        case Err(e) => Err(e)
        case Ok(dec) => Ok(Dds(h, dec, Some(h10)))
    else if cc == FourCCAti2 then Ok(Dds(h, Bc5, None))
    else Err(UnsupportedFourCC)
  }

  /** The FourCC codes that select a decoder without a DX10 header. */
  predicate Direct(cc: u32)
  {
    cc == FourCCDxt1 || cc == FourCCDxt3 || cc == FourCCDxt5 || cc == FourCCNone || cc == FourCCAti2
  }

  /**
   * Create accepts a header exactly when its FourCC is one of the five direct codes, or
   * "DX10" followed by a DX10 header whose format NewDecoder knows; it keeps the header,
   * and carries a DX10 header exactly when it read one.
   */
  lemma SelectAccepts(h: DdsHeader, d: seq<byte>)
    ensures Select(h, d).Ok? <==>
      Direct(h.pixelFormat.fourCC) ||
      (h.pixelFormat.fourCC == FourCCDx10 && 148 <= |d| && NewDecoder(U32(d, 128)).Ok?)
    ensures Select(h, d).Ok? ==> Select(h, d).value.header == h
    ensures Select(h, d).Ok? ==> (Select(h, d).value.header10.Some? <==> h.pixelFormat.fourCC == FourCCDx10)
    ensures Select(h, d).Ok? && h.pixelFormat.fourCC == FourCCNone ==>
      Select(h, d).value.decoder == Uncompressed(None, None)
  {
  }

  /** Dds.Create up to decoding: reads the header at 0, then picks the decoder. */
  method Create(d: seq<byte>) returns (r: Result<Dds>, q: nat)
    ensures HeaderAt(d, 0).Err? ==> r == Err(HeaderAt(d, 0).error)
    ensures HeaderAt(d, 0).Ok? ==> r == Select(HeaderAt(d, 0).value, d)
    ensures r.Ok? ==> q == (if r.value.header10.Some? then 148 else 128)
  {
    var h;
    h, q :- ReadHeader(d, 0);
    var cc := h.pixelFormat.fourCC;
    if cc == FourCCDxt1 {
      r := Ok(Dds(h, Dxt1, None));
    } else if cc == FourCCDxt2 || cc == FourCCDxt4 {
      r := Err(NoDxt2OrDxt4);
    } else if cc == FourCCDxt3 {
      r := Ok(Dds(h, Dxt3, None));
    } else if cc == FourCCDxt5 {
      r := Ok(Dds(h, Dxt5, None));
    } else if cc == FourCCNone {
      r := Ok(Dds(h, Uncompressed(None, None), None));
    } else if cc == FourCCDx10 {
      var h10;
      h10, q :- ReadDx10(d, q);
      var dec :- NewDecoder(h10.dxgiFormat);
      r := Ok(Dds(h, dec, Some(h10)));
    } else if cc == FourCCAti2 {
      r := Ok(Dds(h, Bc5, None));
    } else {
      r := Err(UnsupportedFourCC);
    }
  }

  // ---------------------------------------------------------------------------------------
  // Pixel sizes and the row stride
  // ---------------------------------------------------------------------------------------

  /** How an uncompressed image's pixels are laid out. */
  datatype ImageFormat = Rgb8 | R5g5b5 | R5g6b5 | R5g5b5a1 | Rgba16 | Rgb24 | Rgba32

  /** DdsLoadInfo. */
  datatype LoadInfo = LoadInfo(compressed: bool, swap: bool, palette: bool, divSize: u32,
                               blockBytes: u32, depth: nat, format: ImageFormat)

  const UnrecognizedBitCount := "Unrecognized rgb bit count"

  /** The pixel-format flag that says the pixels carry alpha. */
  const AlphaPixels := 1

  /** UncompressedDds.SixteenBitImageFormat: the 16-bit layout the masks and flags describe. */
  function SixteenBitFormat(pf: PixelFormat): ImageFormat
  {
    if pf.aMask == 0xF000 && pf.rMask == 0xF00 && pf.gMask == 0xF0 && pf.bMask == 0xF then Rgba16
    else if pf.flags % 2 == AlphaPixels then R5g5b5a1
    else if pf.gMask == 0x7e0 then R5g6b5
    else R5g5b5
  }

  /** A 4-4-4-4 mask set is Rgba16 whatever the flags; otherwise alpha decides 5-5-5-1. */
  lemma SixteenBitFormats(pf: PixelFormat)
    ensures SixteenBitFormat(pf) == Rgba16 <==>
      pf.aMask == 0xF000 && pf.rMask == 0xF00 && pf.gMask == 0xF0 && pf.bMask == 0xF
    ensures SixteenBitFormat(pf) == R5g5b5a1 <==> SixteenBitFormat(pf) != Rgba16 && pf.flags % 2 == 1
    ensures SixteenBitFormat(pf) in {Rgba16, R5g5b5a1, R5g6b5, R5g5b5}
  {
  }

  /** UncompressedDds.ImageInfo. */
  function ImageInfo(h: DdsHeader, bitsPerPixel: Option<u32>, rgbSwapped: Option<bool>): Result<LoadInfo>
  {
    var pf := h.pixelFormat;
    var swapped := if rgbSwapped.Some? then rgbSwapped.value else pf.rMask < pf.gMask;
    var bits := if bitsPerPixel.Some? then bitsPerPixel.value else pf.rgbBitCount;
    if bits == 8 then Ok(LoadInfo(false, swapped, true, 1, 1, 8, Rgb8))
    else if bits == 16 then Ok(LoadInfo(false, swapped, false, 1, 2, 16, SixteenBitFormat(pf)))
    else if bits == 24 then Ok(LoadInfo(false, swapped, false, 1, 3, 24, Rgb24))
    else if bits == 32 then Ok(LoadInfo(false, swapped, false, 1, 4, 32, Rgba32))
    else Err(UnrecognizedBitCount)
  }

  /**
   * The load info exists exactly for 8, 16, 24 and 32 bits; its depth is that bit count,
   * a pixel takes depth/8 bytes, pixels are single (divSize 1), only 8 bits is a palette,
   * and the swap flag is the given one or else "red's mask below green's".
   */
  lemma ImageInfoShape(h: DdsHeader, bitsPerPixel: Option<u32>, rgbSwapped: Option<bool>)
    ensures var bits := if bitsPerPixel.Some? then bitsPerPixel.value else h.pixelFormat.rgbBitCount;
      var r := ImageInfo(h, bitsPerPixel, rgbSwapped);
      && (r.Ok? <==> bits in {8, 16, 24, 32})
      && (r.Err? ==> r.error == UnrecognizedBitCount)
      && (r.Ok? ==> r.value.depth == bits && 8 * r.value.blockBytes == bits && r.value.divSize == 1)
      && (r.Ok? ==> !r.value.compressed && (r.value.palette <==> bits == 8))
      && (r.Ok? ==> r.value.swap == if rgbSwapped.Some? then rgbSwapped.value
                                    else h.pixelFormat.rMask < h.pixelFormat.gMask)
  {
  }

  /** IImage.BitsPerPixel of each decoder. */
  function BitsPerPixel(dds: Dds): Result<nat>
  {
    match dds.decoder
    case Dxt1 => Ok(24)
    case Dxt3 => Ok(32)
    case Dxt5 => Ok(32)
    case Bc5 => Ok(24)
    case Uncompressed(bits, swapped) =>
      match ImageInfo(dds.header, bits, swapped)
      case Err(e) => Err(e)
      case Ok(info) => Ok(info.depth)
  }

  /** Dds.Stride: a row's bytes, width · BytesPerPixel, rounded up to a multiple of 4, cast to int. */
  function Stride(width: u32, bytesPerPixel: nat): i32
  {
    Wrap32(4 * ((width * bytesPerPixel + 3) / 4))
  }

  /** The stride is the least multiple of 4 that holds a row, as long as that fits an int. */
  lemma StrideRoundsUp(width: u32, bytesPerPixel: nat)
    ensures var row := width * bytesPerPixel;
      var padded := 4 * ((row + 3) / 4);
      && padded % 4 == 0 && row <= padded < row + 4
      && (padded < 0x8000_0000 ==> Stride(width, bytesPerPixel) == padded)
      && (Stride(width, bytesPerPixel) - padded) % 0x1_0000_0000 == 0
  {
    var row := width * bytesPerPixel;
    var padded := 4 * ((row + 3) / 4);
    assert (row + 3) / 4 * 4 <= row + 3 < (row + 3) / 4 * 4 + 4;
    if padded < 0x8000_0000 {
      assert padded % 0x1_0000_0000 == padded;
    }
  }

  // ---------------------------------------------------------------------------------------
  // The uncompressed decoder
  // ---------------------------------------------------------------------------------------

  function MaxU32(a: u32, b: u32): u32 { if a < b then b else a }

  /**
   * UncompressedDds.CalcSize: width/div · height/div · blockBytes in C#'s 64-bit arithmetic
   * with truncating division, cast to int. The dimensions are cast to int first.
   */
  function CalcSize(h: DdsHeader, info: LoadInfo): (n: i32)
    requires info.divSize > 0
  {
    var width := Signed32(MaxU32(info.divSize, h.width));
    var height := Signed32(MaxU32(info.divSize, h.height));
    Wrap32(CsMath.Div(CsMath.Div(width, info.divSize) * height, info.divSize) * info.blockBytes)
  }

  /** For single pixels the size is width · height · blockBytes, an empty dimension counting as one. */
  lemma CalcSizeExact(h: DdsHeader, info: LoadInfo)
    requires info.divSize == 1
    requires h.width < 0x8000_0000 && h.height < 0x8000_0000
    requires MaxU32(1, h.width) * MaxU32(1, h.height) * info.blockBytes < 0x8000_0000
    ensures CalcSize(h, info) == MaxU32(1, h.width) * MaxU32(1, h.height) * info.blockBytes
  {
    var w := MaxU32(1, h.width);
    var ht := MaxU32(1, h.height);
    var area := w as int * ht;
    DivByOne(w);
    DivByOne(area);
    SmallWraps(area * info.blockBytes);
  }

  lemma DivByOne(a: nat)
    ensures CsMath.Div(a, 1) == a
  {
    CsMath.NonNegativeAgrees(a, 1);
  }

  lemma SmallWraps(x: nat)
    requires x < 0x8000_0000
    ensures Wrap32(x) == x
  {
    assert x % 0x1_0000_0000 == x;
  }

  /** A 16- or 32-bit image's size is a whole number of pixels, even after the cast to int. */
  lemma CalcSizeMultiple(h: DdsHeader, info: LoadInfo)
    requires info.divSize > 0 && (info.blockBytes == 2 || info.blockBytes == 4)
    ensures CalcSize(h, info) % info.blockBytes == 0
  {
    var width := Signed32(MaxU32(info.divSize, h.width));
    var height := Signed32(MaxU32(info.divSize, h.height));
    WrapMultiple(CsMath.Div(CsMath.Div(width, info.divSize) * height, info.divSize), info.blockBytes);
  }

  /** C#'s cast to int keeps a multiple of 2 or 4 a multiple. */
  lemma WrapMultiple(a: int, m: nat)
    requires m == 2 || m == 4
    ensures Wrap32(a * m) % m == 0
  {
    var x := a * m;
    var q := x / 0x1_0000_0000;
    var r := x % 0x1_0000_0000;
    assert x == 0x1_0000_0000 * q + r;
    if m == 2 {
      assert r == 2 * (a - 0x8000_0000 * q);
    } else {
      assert r == 4 * (a - 0x4000_0000 * q);
    }
  }

  /** The buffer after PfimUtil.Fill from a memory stream: the body's bytes, then zeros. */
  function Filled(body: seq<byte>, n: nat): (s: seq<byte>)
    ensures |s| == n
  {
    seq(n, k requires 0 <= k < n => if k < |body| then body[k] else 0)
  }

  /** The Rgba32 swap at one index: red and blue change places in every complete pixel. */
  function Swap32At(s: seq<byte>, k: nat): byte
    requires k < |s|
  {
    if k % 4 == 0 && k + 2 < |s| then s[k + 2]
    else if k % 4 == 2 then s[k - 2]
    else s[k]
  }

  function Swapped32(s: seq<byte>): (t: seq<byte>)
    ensures |t| == |s|
  {
    seq(|s|, k requires 0 <= k < |s| => Swap32At(s, k))
  }

  /** A byte's high nibble, `(x & 0xF0) >> 4`. */
  function Hi(x: nat): nat
  {
    if x < 16 then 0 else 1 + Hi(x - 16)
  }

  /** A byte's low nibble, `x & 0xF`. */
  function Lo(x: nat): nat
  {
    if x < 16 then x else Lo(x - 16)
  }

  /** The nibbles are the quotient and remainder by 16, and rebuild the byte. */
  lemma {:induction false} Nibbles(x: nat)
    ensures x == 16 * Hi(x) + Lo(x) && Lo(x) < 16
    ensures Hi(x) == x / 16 && Lo(x) == x % 16
  {
    if x >= 16 {
      Nibbles(x - 16);
    }
  }

  /** A byte built from two nibbles gives them back. */
  lemma {:induction false} NibblesOf(h: nat, l: nat)
    requires l < 16
    ensures Hi(16 * h + l) == h && Lo(16 * h + l) == l
  {
    if h > 0 {
      NibblesOf(h - 1, l);
      assert 16 * h + l - 16 == 16 * (h - 1) + l;
    }
  }

  /** `(high & 0xF0) + (low & 0xF)`: the high nibble of one byte with the low nibble of another. */
  function Mix(high: byte, low: byte): (m: byte)
  {
    Nibbles(high);
    Nibbles(low);
    16 * Hi(high) + Lo(low)
  }

  /** Mixing two bytes both ways, then mixing the results, gives the first byte back. */
  lemma MixTwice(a: byte, b: byte)
    ensures Mix(Mix(a, b), Mix(b, a)) == a
  {
    Nibbles(a);
    Nibbles(b);
    NibblesOf(Hi(a), Lo(b));
    NibblesOf(Hi(b), Lo(a));
    Nibbles(a);
  }

  /** The Rgba16 swap at one index: the low nibbles of each byte pair change places. */
  function Swap16At(s: seq<byte>, k: nat): byte
    requires k < |s|
  {
    if k % 2 == 0 && k + 1 < |s| then Mix(s[k], s[k + 1])
    else if k % 2 == 1 then Mix(s[k], s[k - 1])
    else s[k]
  }

  function Swapped16(s: seq<byte>): (t: seq<byte>)
    ensures |t| == |s|
  {
    seq(|s|, k requires 0 <= k < |s| => Swap16At(s, k))
  }

  /** Swapping red and blue twice restores the pixels. */
  lemma Swapped32Involutive(s: seq<byte>)
    ensures Swapped32(Swapped32(s)) == s
  {
    var t := Swapped32(s);
    forall k | 0 <= k < |s|
      ensures Swap32At(t, k) == s[k]
    {
      if k % 4 == 0 && k + 2 < |s| {
        assert t[k + 2] == Swap32At(s, k + 2);
      } else if k % 4 == 2 {
        assert t[k - 2] == Swap32At(s, k - 2);
      }
    }
  }

  /** The nibble swap twice restores the pixels. */
  lemma Swapped16Involutive(s: seq<byte>)
    ensures Swapped16(Swapped16(s)) == s
  {
    var t := Swapped16(s);
    forall k | 0 <= k < |s|
      ensures Swap16At(t, k) == s[k]
    {
      if k % 2 == 0 && k + 1 < |s| {
        assert t[k] == Mix(s[k], s[k + 1]) && t[k + 1] == Swap16At(s, k + 1) == Mix(s[k + 1], s[k]);
        MixTwice(s[k], s[k + 1]);
      } else if k % 2 == 1 {
        assert t[k] == Mix(s[k], s[k - 1]) && t[k - 1] == Swap16At(s, k - 1) == Mix(s[k - 1], s[k]);
        MixTwice(s[k], s[k - 1]);
      }
    }
  }

  /** The swap of a complete pixel touches only its red and blue bytes. */
  lemma Swapped32Pixel(s: seq<byte>, p: nat)
    requires 4 * p + 4 <= |s|
    ensures Swapped32(s)[4 * p..4 * p + 4] == [s[4 * p + 2], s[4 * p + 1], s[4 * p], s[4 * p + 3]]
  {
    var t := Swapped32(s);
    assert t[4 * p] == Swap32At(s, 4 * p) && t[4 * p + 1] == Swap32At(s, 4 * p + 1);
    assert t[4 * p + 2] == Swap32At(s, 4 * p + 2) && t[4 * p + 3] == Swap32At(s, 4 * p + 3);
  }

  /**
   * The Rgba32 swap loop: exchanges bytes i and i+2 for i = 0, 4, 8, ...; a last group of
   * one or two bytes makes `data[i + 2]` throw before that group is touched.
   */
  method SwapRgba32(data: array<byte>) returns (r: Result<()>)
    modifies data
    ensures r.Ok? <==> data.Length % 4 == 0 || data.Length % 4 == 3
    ensures r.Err? ==> r == Err(IndexOutOfRange)
    ensures data[..] == Swapped32(old(data[..]))
  {
    ghost var s := data[..];
    var i := 0;
    ghost var p := 0;
    while i + 2 < data.Length
      invariant i == 4 * p && (i <= data.Length || (data.Length % 4 == 3 && i == data.Length + 1))
      invariant forall k {:trigger Swap32At(s, k)} :: 0 <= k < i && k < data.Length ==> data[k] == Swap32At(s, k)
      invariant forall k :: i <= k < data.Length ==> data[k] == s[k]
    {
      data[i], data[i + 2] := data[i + 2], data[i];
      assert data[i] == Swap32At(s, i) && data[i + 1] == Swap32At(s, i + 1);
      assert data[i + 2] == Swap32At(s, i + 2);
      assert i + 3 < data.Length ==> data[i + 3] == Swap32At(s, i + 3);
      i := i + 4;
      p := p + 1;
    }
    // One or two bytes left over: the next round reads data[i + 2] and throws.
    if i < data.Length {
      assert data.Length % 4 == 1 || data.Length % 4 == 2;
      assert data[i] == Swap32At(s, i);
      r := Err(IndexOutOfRange);
    } else {
      r := Ok(());
    }
    Swapped32Points(s, data[..]);
  }

  /** A buffer that agrees with the swap at every index is the swapped buffer. */
  lemma Swapped32Points(s: seq<byte>, t: seq<byte>)
    requires |t| == |s| && forall k :: 0 <= k < |s| ==> t[k] == Swap32At(s, k)
    ensures t == Swapped32(s)
  {
  }

  /** Where the 16-bit swap sends a complete pair. */
  lemma Swap16Pair(s: seq<byte>, p: nat)
    requires 2 * p + 1 < |s|
    ensures Swap16At(s, 2 * p) == Mix(s[2 * p], s[2 * p + 1])
    ensures Swap16At(s, 2 * p + 1) == Mix(s[2 * p + 1], s[2 * p])
  {
  }

  lemma Swapped16Points(s: seq<byte>, t: seq<byte>)
    requires |t| == |s| && forall k :: 0 <= k < |s| ==> t[k] == Swap16At(s, k)
    ensures t == Swapped16(s)
  {
  }

  /** One round of the Rgba16 swap: bytes i and i+1 exchange their low nibbles. */
  method SwapNibbles(data: array<byte>, i: nat)
    requires i + 1 < data.Length
    modifies data
    ensures data[..] == old(data[..])[i := Mix(old(data[i]), old(data[i + 1]))]
                                     [i + 1 := Mix(old(data[i + 1]), old(data[i]))]
  {
    var a, b := data[i], data[i + 1];
    data[i], data[i + 1] := Mix(a, b), Mix(b, a);
  }

  /**
   * The Rgba16 swap loop: exchanges the low nibbles of bytes i and i+1 for i = 0, 2, 4, ...;
   * an odd last byte makes `data[i + 1]` throw before it is touched.
   */
  method SwapRgba16(data: array<byte>) returns (r: Result<()>)
    modifies data
    ensures r.Ok? <==> data.Length % 2 == 0
    ensures r.Err? ==> r == Err(IndexOutOfRange)
    ensures data[..] == Swapped16(old(data[..]))
  {
    ghost var s := data[..];
    var i := 0;
    ghost var p := 0;
    while i + 1 < data.Length
      invariant i == 2 * p <= data.Length
      invariant forall k {:trigger Swap16At(s, k)} :: 0 <= k < i ==> data[k] == Swap16At(s, k)
      invariant forall k :: i <= k < data.Length ==> data[k] == s[k]
    {
      SwapNibbles(data, i);
      Swap16Pair(s, p);
      i := i + 2;
      p := p + 1;
    }
    // An odd last byte: the next round reads data[i + 1] and throws.
    if i < data.Length {
      assert data[i] == Swap16At(s, i);
      r := Err(IndexOutOfRange);
    } else {
      r := Ok(());
    }
    Swapped16Points(s, data[..]);
  }

  const CannotSwap := "Do not know how to swap"

  /** What the swap step does to a filled buffer, by format. */
  function SwapStep(info: LoadInfo, s: seq<byte>): Result<seq<byte>>
  {
    if !info.swap then Ok(s)
    else if info.format == Rgba32 then
      if |s| % 4 == 1 || |s| % 4 == 2 then Err(IndexOutOfRange) else Ok(Swapped32(s))
    else if info.format == Rgba16 then
      if |s| % 2 == 1 then Err(IndexOutOfRange) else Ok(Swapped16(s))
    else Err(CannotSwap)
  }

  /**
   * UncompressedDds.DataDecode on the bytes that follow the header: the load info, a buffer
   * of CalcSize bytes filled from the body, then the red/blue swap if the info asks for it.
   */
  method DecodeUncompressed(h: DdsHeader, bitsPerPixel: Option<u32>, rgbSwapped: Option<bool>, body: seq<byte>)
    returns (r: Result<seq<byte>>)
    ensures ImageInfo(h, bitsPerPixel, rgbSwapped).Err? ==> r == Err(UnrecognizedBitCount)
    ensures ImageInfo(h, bitsPerPixel, rgbSwapped).Ok? ==>
      var info := ImageInfo(h, bitsPerPixel, rgbSwapped).value;
      r == if CalcSize(h, info) < 0 then Err(Overflow) else SwapStep(info, Filled(body, CalcSize(h, info)))
  {
    var info :- ImageInfo(h, bitsPerPixel, rgbSwapped);
    var n := CalcSize(h, info);
    if n < 0 {
      return Err(Overflow);
    }
    var data := new byte[n](k requires 0 <= k < n => if k < |body| then body[k] else 0);
    assert data[..] == Filled(body, n);
    if info.swap {
      if info.format == Rgba32 {
        var ok := SwapRgba32(data);
        if ok.Err? {
          return Err(ok.error);
        }
      } else if info.format == Rgba16 {
        var ok := SwapRgba16(data);
        if ok.Err? {
          return Err(ok.error);
        }
      } else {
        return Err(CannotSwap);
      }
    }
    r := Ok(data[..]);
  }

  /**
   * The uncompressed decoder fails only on the load info, a negative size, or a swap of a
   * format other than Rgba32 and Rgba16: the size of a 32- or 16-bit image is always a
   * whole number of pixels, so the swap loops never run off the end.
   */
  lemma UncompressedFailures(h: DdsHeader, bitsPerPixel: Option<u32>, rgbSwapped: Option<bool>, body: seq<byte>)
    requires ImageInfo(h, bitsPerPixel, rgbSwapped).Ok?
    requires CalcSize(h, ImageInfo(h, bitsPerPixel, rgbSwapped).value) >= 0
    ensures var info := ImageInfo(h, bitsPerPixel, rgbSwapped).value;
      SwapStep(info, Filled(body, CalcSize(h, info))).Err? <==>
        info.swap && info.format != Rgba32 && info.format != Rgba16
  {
    var info := ImageInfo(h, bitsPerPixel, rgbSwapped).value;
    ImageInfoShape(h, bitsPerPixel, rgbSwapped);
    if info.format == Rgba32 || info.format == Rgba16 {
      CalcSizeMultiple(h, info);
    }
  }
}
