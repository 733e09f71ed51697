/// PakCentralDirFile.cs: one entry of the central directory, which names a stored file,
/// gives its sizes and compression and points at its local header.
module PakCentralDirFile {
  import opened Outcome
  import opened Bytes
  import opened Cursor
  import opened Layout
  import opened PakConstants
  import opened PakUtil

  /** The bytes of the fixed part, before the name. */
  const FixedSize := 46

  /** The widths of the fixed fields Read reads, in order. */
  const Fields: seq<Width> :=
    [W16, W16, W16, W16, W16, W16, W16, W16, W32, W32, W32, W16, W16, W16, W16, W16, W32, W32]

  /** An entry; isAionFormat says which of the two signatures it carries. */
  datatype DirFile = DirFile(
    isAionFormat: bool,
    signature1: u16, signature2: u16, createVersion: u16, extractVersion: u16,
    flags: u16, compressionMethod: u16, time: u16, date: u16,
    crc: u32, compressedSize: u32, uncompressedSize: u32,
    filenameLength: u16, extraFieldLength: u16, fileCommentLength: u16,
    diskNumStart: u16, internalFileAttr: u16, externalFileAttr: u32, localHeaderOffset: u32,
    filename: string)

  lemma FieldsSize()
    ensures Size(Fields) == FixedSize
  {
    assert Fields[..0] == [];
    SizeStep(Fields, 0); SizeStep(Fields, 1); SizeStep(Fields, 2);
    SizeStep(Fields, 3); SizeStep(Fields, 4); SizeStep(Fields, 5);
    SizeStep(Fields, 6); SizeStep(Fields, 7); SizeStep(Fields, 8);
    SizeStep(Fields, 9); SizeStep(Fields, 10); SizeStep(Fields, 11);
    SizeStep(Fields, 12); SizeStep(Fields, 13); SizeStep(Fields, 14);
    SizeStep(Fields, 15); SizeStep(Fields, 16); SizeStep(Fields, 17);
    assert Fields[..18] == Fields;
  }

  /** The fixed fields, in the order they are stored. */
  function FieldsOf(f: DirFile): (vs: seq<nat>)
    ensures Fits(Fields, vs)
  {
    [f.signature1, f.signature2, f.createVersion, f.extractVersion,
     f.flags, f.compressionMethod, f.time, f.date,
     f.crc, f.compressedSize, f.uncompressedSize,
     f.filenameLength, f.extraFieldLength, f.fileCommentLength,
     f.diskNumStart, f.internalFileAttr, f.externalFileAttr, f.localHeaderOffset]
  }

  /** Values for the fixed fields, each within its width. */
  predicate Typed(vs: seq<nat>)
  {
    |vs| == 18 &&
    vs[0] < 0x1_0000 && vs[1] < 0x1_0000 && vs[2] < 0x1_0000 && vs[3] < 0x1_0000 &&
    vs[4] < 0x1_0000 && vs[5] < 0x1_0000 && vs[6] < 0x1_0000 && vs[7] < 0x1_0000 &&
    vs[8] < 0x1_0000_0000 && vs[9] < 0x1_0000_0000 && vs[10] < 0x1_0000_0000 &&
    vs[11] < 0x1_0000 && vs[12] < 0x1_0000 && vs[13] < 0x1_0000 && vs[14] < 0x1_0000 &&
    vs[15] < 0x1_0000 && vs[16] < 0x1_0000_0000 && vs[17] < 0x1_0000_0000
  }

  lemma FitsTyped(vs: seq<nat>)
    requires Fits(Fields, vs)
    ensures Typed(vs)
  {
  }

  /** The entry with these fixed fields, format flag and name. */
  function OfFields(vs: seq<nat>, isAion: bool, name: string): (f: DirFile)
    requires Typed(vs)
    ensures f.isAionFormat == isAion && f.filename == name
  {
    DirFile(isAion, vs[0], vs[1], vs[2], vs[3], vs[4], vs[5], vs[6], vs[7], vs[8], vs[9],
            vs[10], vs[11], vs[12], vs[13], vs[14], vs[15], vs[16], vs[17], name)
  }

  /** The entry built from fixed fields has those fields. */
  lemma FieldsOfOf(vs: seq<nat>, isAion: bool, name: string)
    requires Typed(vs)
    ensures FieldsOf(OfFields(vs, isAion, name)) == vs
  {
  }

  predicate AionSignature(c: Constants, f: DirFile)
  {
    f.signature1 == c.pakSignature1 && f.signature2 == c.pakSignature2Dir
  }

  predicate ZipSignature(c: Constants, f: DirFile)
  {
    f.signature1 == c.zipSignature1 && f.signature2 == c.zipSignature2Dir
  }

  /**
   * An entry Read returns: a known signature, the format flag set exactly for the game's,
   * no file comment and the first disk.
   */
  predicate Accepted(c: Constants, f: DirFile)
  {
    (AionSignature(c, f) || ZipSignature(c, f)) && f.isAionFormat == AionSignature(c, f) &&
    f.fileCommentLength == 0 && f.diskNumStart == 0
  }

  /** The fixed fields as they read at position p, before any check. */
  function FixedFields(d: seq<byte>, p: nat): (vs: seq<nat>)
    requires p + FixedSize <= |d|
    ensures Typed(vs)
  {
    FieldsSize();
    ReadFits(d, p, Fields);
    FitsTyped(Layout.Read(d, p, Fields));
    Layout.Read(d, p, Fields)
  }

  /** The signature test of Read on the fixed fields: the game's own pair. */
  predicate AionFields(c: Constants, vs: seq<nat>)
    requires |vs| == 18
  {
    vs[0] == c.pakSignature1 && vs[1] == c.pakSignature2Dir
  }

  /** The signature test of Read on the fixed fields: plain zip's pair. */
  predicate ZipFields(c: Constants, vs: seq<nat>)
    requires |vs| == 18
  {
    vs[0] == c.zipSignature1 && vs[1] == c.zipSignature2Dir
  }

  /** The checks of Read on the fixed fields, in its order: the entry, or the exception's message. */
  function Check(c: Constants, vs: seq<nat>, name: string): (r: Result<DirFile>)
    requires Typed(vs)
    ensures r.Ok? ==> Accepted(c, r.value) && r.value == OfFields(vs, r.value.isAionFormat, name)
  {
    if !AionFields(c, vs) && !ZipFields(c, vs) then Err("bad central dir signature")
    else if vs[13] != 0 then Err("file comment not supported")
    else if vs[14] != 0 then Err("disk num not supported")
    else Ok(OfFields(vs, AionFields(c, vs), name))
  }

  /**
   * What Read makes of the bytes at position p: the entry and the position after it. The
   * name and the extra field are read with ReadBytes, so near the end of the stream they
   * come out short rather than failing.
   */
  function Decode(c: Constants, d: seq<byte>, p: nat): (r: Result<(DirFile, nat)>)
    ensures r.Ok? ==> Accepted(c, r.value.0)
  {
    if p + FixedSize > |d| then Err(EndOfStream) else Entry(c, d, p, FixedFields(d, p))
  }

  /** What Read makes of the name, the extra field and the checks, once the fixed fields are read. */
  function Entry(c: Constants, d: seq<byte>, p: nat, vs: seq<nat>): (r: Result<(DirFile, nat)>)
    requires p + FixedSize <= |d| && Typed(vs)
    ensures r.Ok? ==> Accepted(c, r.value.0)
  {
    var nameEnd := Min(p + FixedSize + vs[11], |d|);
    Finish(c, vs, FilenameOf(d[p + FixedSize..nameEnd]), Min(nameEnd + vs[12], |d|))
  }

  /** The checks' outcome, paired on success with the position after the extra field. */
  function Finish(c: Constants, vs: seq<nat>, name: string, end: nat): (r: Result<(DirFile, nat)>)
    requires Typed(vs)
    ensures r.Ok? ==> Accepted(c, r.value.0)
  {
    match Check(c, vs, name)
    case Err(e) => Err(e)
    case Ok(f) => Ok((f, end))
  }

  /** The name of a decoded entry is in normal form: normalising it again changes nothing. */
  lemma DecodedNameNormal(c: Constants, d: seq<byte>, p: nat)
    requires Decode(c, d, p).Ok?
    ensures var f := Decode(c, d, p).value.0; NormalizeFilename(f.filename) == f.filename
  {
    var vs := FixedFields(d, p);
    var nameEnd := Min(p + FixedSize + vs[11], |d|);
    NormalizeFilenameIdempotent(Utf8Text(d[p + FixedSize..nameEnd]));
  }

  /** Read: the fixed fields, the name, the signature check, the extra field, the other checks. */
  method Read(c: Constants, d: seq<byte>, p: nat) returns (r: Result<DirFile>, q: nat)
    ensures r.Ok? ==> Decode(c, d, p) == Ok((r.value, q))
    ensures r.Err? ==> Decode(c, d, p) == Err(r.error)
  {
    var vs;
    vs, q :- ReadFixed(d, p);
    var name;
    name, q := ReadFilename(d, q, vs[11]);
    assert Decode(c, d, p) == Finish(c, vs, name.value, Min(q + vs[12], |d|));
    r, q := ReadRest(c, d, q, vs, name.value);
  }

  /** Read after the name: the signature check, the extra field, the other checks. */
  method ReadRest(c: Constants, d: seq<byte>, p: nat, vs: seq<nat>, name: string) returns (r: Result<DirFile>, q: nat)
    requires p <= |d| && Typed(vs)
    ensures r.Ok? ==> Finish(c, vs, name, Min(p + vs[12], |d|)) == Ok((r.value, q))
    ensures r.Err? ==> Finish(c, vs, name, Min(p + vs[12], |d|)) == Err(r.error)
  {
    q := p;
    var aion :- CheckSignature(c, vs);
    q := SkipExtraField(d, q, vs[12]);
    r := CheckRest(c, vs, aion, name);
  }

  /** The fixed fields, read in order. */
  method ReadFixed(d: seq<byte>, p: nat) returns (r: Result<seq<nat>>, q: nat)
    ensures r.Ok? <==> p + FixedSize <= |d|
    ensures r.Err? ==> r == Err(EndOfStream)
    ensures r.Ok? ==> r.value == FixedFields(d, p) && q == p + FixedSize
  {
    FieldsSize();
    r, q := ReadFields(d, p, Fields);
  }

  /** The signature test of Read: the game's own, plain zip's, or an exception. */
  method CheckSignature(c: Constants, vs: seq<nat>) returns (r: Result<bool>)
    requires Typed(vs)
    ensures r == if AionFields(c, vs) then Ok(true) else if ZipFields(c, vs) then Ok(false)
                 else Err("bad central dir signature")
  {
    var f := OfFields(vs, false, "");
    if f.signature1 == c.pakSignature1 && f.signature2 == c.pakSignature2Dir {
      return Ok(true);
    } else {
      if f.signature1 != c.zipSignature1 || f.signature2 != c.zipSignature2Dir {
        return Err("bad central dir signature");
      }
    }
    return Ok(false);
  }

  /** The checks of Read after the extra field. */
  method CheckRest(c: Constants, vs: seq<nat>, aion: bool, name: string) returns (r: Result<DirFile>)
    requires Typed(vs) && aion == AionFields(c, vs) && (aion || ZipFields(c, vs))
    ensures r == Check(c, vs, name)
  {
    var f := OfFields(vs, aion, name);
    if f.fileCommentLength != 0 {
      return Err("file comment not supported");
    }
    if f.diskNumStart != 0 {
      return Err("disk num not supported");
    }
    r := Ok(f);
  }

  /** The extra field, when there is one, is read and dropped. */
  method SkipExtraField(d: seq<byte>, p: nat, length: u16) returns (q: nat)
    requires p <= |d|
    ensures q == Min(p + length, |d|)
  {
    q := p;
    if length != 0 {
      var extra;
      extra, q := ReadBytes(d, p, length);
    }
  }

  /** The entry's bytes: the fixed fields, then the name's bytes, then the extra field. */
  function Encode(f: DirFile, name: seq<byte>, extra: seq<byte>): (s: seq<byte>)
    ensures |s| == FixedSize + |name| + |extra|
  {
    FieldsSize();
    Write(Fields, FieldsOf(f)) + name + extra
  }

  /** An entry whose fields describe its name and extra field exactly. */
  predicate Describes(f: DirFile, name: seq<byte>, extra: seq<byte>)
  {
    |name| == f.filenameLength && |extra| == f.extraFieldLength && f.filename == FilenameOf(name)
  }

  /** Rebuilding an entry from its fields, format flag and name gives the entry. */
  lemma OfFieldsOf(f: DirFile)
    ensures OfFields(FieldsOf(f), f.isAionFormat, f.filename) == f
  {
  }

  /** Read's checks pass an accepted entry's own fields. */
  lemma CheckAccepted(c: Constants, f: DirFile)
    requires Accepted(c, f)
    ensures Check(c, FieldsOf(f), f.filename) == Ok(f)
  {
    OfFieldsOf(f);
  }

  /** Where an entry stands, its fixed fields read back. */
  lemma FixedOfEncoded(d: seq<byte>, p: nat, f: DirFile, name: seq<byte>, extra: seq<byte>)
    requires StandsAt(d, p, Encode(f, name, extra))
    ensures p + FixedSize + |name| + |extra| <= |d|
    ensures FixedFields(d, p) == FieldsOf(f)
  {
    FieldsSize();
    var w := Write(Fields, FieldsOf(f));
    var e := Encode(f, name, extra);
    assert e == w + name + extra;
    StandsPart(d, p, e, 0, FixedSize);
    assert e[0..FixedSize] == w;
    ReadStanding(d, p, Fields, FieldsOf(f));
  }

  /** Where an entry stands, its name's bytes follow the fixed fields. */
  lemma NameOfEncoded(d: seq<byte>, p: nat, f: DirFile, name: seq<byte>, extra: seq<byte>)
    requires StandsAt(d, p, Encode(f, name, extra))
    ensures p + FixedSize + |name| <= |d|
    ensures d[p + FixedSize..p + FixedSize + |name|] == name
  {
    FieldsSize();
    var e := Encode(f, name, extra);
    assert e == Write(Fields, FieldsOf(f)) + name + extra;
    PartAt(d, p, e, FixedSize, FixedSize + |name|);
    assert e[FixedSize..FixedSize + |name|] == name;
  }

  /** An accepted entry reads back as itself, and Read stops right after its extra field. */
  lemma DecodeEncoded(c: Constants, d: seq<byte>, p: nat, f: DirFile, name: seq<byte>, extra: seq<byte>)
    requires Accepted(c, f) && Describes(f, name, extra) && StandsAt(d, p, Encode(f, name, extra))
    ensures Decode(c, d, p) == Ok((f, p + FixedSize + |name| + |extra|))
  {
    FixedOfEncoded(d, p, f, name, extra);
    NameOfEncoded(d, p, f, name, extra);
    CheckAccepted(c, f);
  }
}
