/// PakFileEntry.cs: the local header in front of each stored file. After it come the
/// file's bytes.
module PakFileEntry {
  import opened Outcome
  import opened Bytes
  import opened Cursor
  import opened Layout
  import opened PakConstants
  import opened PakUtil

  /** The bytes of the fixed part, before the name. */
  const FixedSize := 30

  /** The widths of the fixed fields Read reads, in order. */
  const Fields: seq<Width> := [W16, W16, W16, W16, W16, W16, W16, W32, W32, W32, W16, W16]

  datatype FileEntry = FileEntry(
    signature1: u16, signature2: u16, extractVersion: u16, flags: u16,
    compressionMethod: u16, time: u16, date: u16,
    crc: u32, compressedSize: u32, uncompressedSize: u32,
    filenameLength: u16, extraFieldLength: u16,
    filename: string)

  lemma FieldsSize()
    ensures Size(Fields) == FixedSize
  {
    assert Fields[..0] == [];
    SizeStep(Fields, 0); SizeStep(Fields, 1); SizeStep(Fields, 2);
    SizeStep(Fields, 3); SizeStep(Fields, 4); SizeStep(Fields, 5);
    SizeStep(Fields, 6); SizeStep(Fields, 7); SizeStep(Fields, 8);
    SizeStep(Fields, 9); SizeStep(Fields, 10); SizeStep(Fields, 11);
    assert Fields[..12] == Fields;
  }

  /** The fixed fields, in the order they are stored. */
  function FieldsOf(e: FileEntry): (vs: seq<nat>)
    ensures Fits(Fields, vs)
  {
    [e.signature1, e.signature2, e.extractVersion, e.flags,
     e.compressionMethod, e.time, e.date,
     e.crc, e.compressedSize, e.uncompressedSize,
     e.filenameLength, e.extraFieldLength]
  }

  /** Values for the fixed fields, each within its width. */
  predicate Typed(vs: seq<nat>)
  {
    |vs| == 12 &&
    vs[0] < 0x1_0000 && vs[1] < 0x1_0000 && vs[2] < 0x1_0000 && vs[3] < 0x1_0000 &&
    vs[4] < 0x1_0000 && vs[5] < 0x1_0000 && vs[6] < 0x1_0000 &&
    vs[7] < 0x1_0000_0000 && vs[8] < 0x1_0000_0000 && vs[9] < 0x1_0000_0000 &&
    vs[10] < 0x1_0000 && vs[11] < 0x1_0000
  }

  lemma FitsTyped(vs: seq<nat>)
    requires Fits(Fields, vs)
    ensures Typed(vs)
  {
  }

  /** The header with these fixed fields and name. */
  function OfFields(vs: seq<nat>, name: string): (e: FileEntry)
    requires Typed(vs)
    ensures e.filename == name
  {
    FileEntry(vs[0], vs[1], vs[2], vs[3], vs[4], vs[5], vs[6], vs[7], vs[8], vs[9],
              vs[10], vs[11], name)
  }

  /** The signature is the game's own or plain zip's. */
  predicate SignatureKnown(c: Constants, e: FileEntry)
  {
    (e.signature1 == c.pakSignature1 && e.signature2 == c.pakSignature2File) ||
    (e.signature1 == c.zipSignature1 && e.signature2 == c.zipSignature2File)
  }

  /** A header Read returns: a known signature and no extra field. */
  predicate Accepted(c: Constants, e: FileEntry)
  {
    SignatureKnown(c, e) && e.extraFieldLength == 0
  }

  /** The fixed fields as they read at position p, before any check. */
  function FixedFields(d: seq<byte>, p: nat): (vs: seq<nat>)
    requires p + FixedSize <= |d|
    ensures Typed(vs)
  {
    FieldsSize();
    ReadFits(d, p, Fields);
    FitsTyped(Layout.Read(d, p, Fields));
    Layout.Read(d, p, Fields)
  }

  /** The checks of Read, in its order: the header, or the exception's message. */
  function Check(c: Constants, vs: seq<nat>, name: string): (r: Result<FileEntry>)
    requires Typed(vs)
    ensures r.Ok? <==> Accepted(c, OfFields(vs, name))
    ensures r.Ok? ==> r.value == OfFields(vs, name)
  {
    var e := OfFields(vs, name);
    if !SignatureKnown(c, e) then Err("bad file signature")
    else if e.extraFieldLength != 0 then Err("extra field not supported")
    else Ok(e)
  }

  /**
   * What Read makes of the bytes at position p: the header and the position of the file's
   * bytes, right after the name. The name is read with ReadBytes, so near the end of the
   * stream it comes out short rather than failing.
   */
  function Decode(c: Constants, d: seq<byte>, p: nat): (r: Result<(FileEntry, nat)>)
    ensures r.Ok? ==> Accepted(c, r.value.0) && p + FixedSize <= r.value.1 <= |d|
  {
    if p + FixedSize > |d| then Err(EndOfStream) else Entry(c, d, p, FixedFields(d, p))
  }

  /** What Read makes of the name and the checks, once the fixed fields are read. */
  function Entry(c: Constants, d: seq<byte>, p: nat, vs: seq<nat>): (r: Result<(FileEntry, nat)>)
    requires p + FixedSize <= |d| && Typed(vs)
    ensures r.Ok? ==> Accepted(c, r.value.0) && p + FixedSize <= r.value.1 <= |d|
  {
    var nameEnd := Min(p + FixedSize + vs[10], |d|);
    Finish(c, vs, FilenameOf(d[p + FixedSize..nameEnd]), nameEnd)
  }

  /** The checks' outcome, paired on success with the position after the name. */
  function Finish(c: Constants, vs: seq<nat>, name: string, end: nat): (r: Result<(FileEntry, nat)>)
    requires Typed(vs)
    ensures r.Ok? ==> Accepted(c, r.value.0) && r.value.1 == end
  {
    match Check(c, vs, name)
    case Err(e) => Err(e)
    case Ok(e) => Ok((e, end))
  }

  /** Read: the fixed fields, the name, then the checks; the stream is left at the file's bytes. */
  method Read(c: Constants, d: seq<byte>, p: nat) returns (r: Result<FileEntry>, q: nat)
    ensures r.Ok? ==> Decode(c, d, p) == Ok((r.value, q))
    ensures r.Err? ==> Decode(c, d, p) == Err(r.error)
  {
    var vs;
    vs, q :- ReadFixed(d, p);
    var name;
    name, q := ReadFilename(d, q, vs[10]);
    assert Decode(c, d, p) == Finish(c, vs, name.value, q);
    r := CheckEntry(c, vs, name.value);
  }

  /** The fixed fields, read in order. */
  method ReadFixed(d: seq<byte>, p: nat) returns (r: Result<seq<nat>>, q: nat)
    ensures r.Ok? <==> p + FixedSize <= |d|
    ensures r.Err? ==> r == Err(EndOfStream)
    ensures r.Ok? ==> r.value == FixedFields(d, p) && q == p + FixedSize
  {
    FieldsSize();
    r, q := ReadFields(d, p, Fields);
  }

  /** The checks of Read. */
  method CheckEntry(c: Constants, vs: seq<nat>, name: string) returns (r: Result<FileEntry>)
    requires Typed(vs)
    ensures r == Check(c, vs, name)
  {
    var e := OfFields(vs, name);
    if e.signature1 != c.pakSignature1 || e.signature2 != c.pakSignature2File {
      if e.signature1 != c.zipSignature1 || e.signature2 != c.zipSignature2File {
        return Err("bad file signature");
      }
    }
    if e.extraFieldLength != 0 {
      return Err("extra field not supported");
    }
    r := Ok(e);
  }

  /** The header's bytes: the fixed fields, then the name's bytes. */
  function Encode(e: FileEntry, name: seq<byte>): (s: seq<byte>)
    ensures |s| == FixedSize + |name|
  {
    FieldsSize();
    Write(Fields, FieldsOf(e)) + name
  }

  /** A header whose fields describe its name exactly. */
  predicate Describes(e: FileEntry, name: seq<byte>)
  {
    |name| == e.filenameLength && e.filename == FilenameOf(name)
  }

  /** Rebuilding a header from its fields and name gives the header. */
  lemma OfFieldsOf(e: FileEntry)
    ensures OfFields(FieldsOf(e), e.filename) == e
  {
  }

  /** Where a header stands, its fixed fields and its name read back. */
  lemma PartsOfEncoded(d: seq<byte>, p: nat, e: FileEntry, name: seq<byte>)
    requires StandsAt(d, p, Encode(e, name))
    ensures p + FixedSize + |name| <= |d|
    ensures FixedFields(d, p) == FieldsOf(e)
    ensures d[p + FixedSize..p + FixedSize + |name|] == name
  {
    FieldsSize();
    var w := Write(Fields, FieldsOf(e));
    var s := Encode(e, name);
    StandsSplit(d, p, w, name);
    ReadStanding(d, p, Fields, FieldsOf(e));
    PartAt(d, p, s, FixedSize, FixedSize + |name|);
    assert s[FixedSize..FixedSize + |name|] == name;
  }

  /** An accepted header reads back as itself, and Read stops right after its name. */
  lemma DecodeEncoded(c: Constants, d: seq<byte>, p: nat, e: FileEntry, name: seq<byte>)
    requires Accepted(c, e) && Describes(e, name) && StandsAt(d, p, Encode(e, name))
    ensures Decode(c, d, p) == Ok((e, p + FixedSize + |name|))
  {
    PartsOfEncoded(d, p, e, name);
    OfFieldsOf(e);
  }
}
