/// PakCentralDirEnd.cs: the end-of-central-directory record, the last 22 bytes of an
/// archive, which says where the central directory starts and how many entries it holds.
module PakCentralDirEnd {
  import opened Outcome
  import opened Bytes
  import opened Layout
  import opened PakConstants

  const HeaderSize := 22

  /** The widths of the fields Read reads, in order. */
  const Fields: seq<Width> := [W16, W16, W16, W16, W16, W16, W32, W32, W16]

  datatype DirEnd = DirEnd(
    signature1: u16, signature2: u16, diskNum: u16, firstDisk: u16,
    thisDiskCentralDirCount: u16, totalCentralDirCount: u16,
    centralDirSize: u32, centralDirOffset: u32, commentLength: u16)

  lemma FieldsSize()
    ensures Size(Fields) == HeaderSize
  {
    assert Fields[..0] == [];
    SizeStep(Fields, 0); SizeStep(Fields, 1); SizeStep(Fields, 2);
    SizeStep(Fields, 3); SizeStep(Fields, 4); SizeStep(Fields, 5);
    SizeStep(Fields, 6); SizeStep(Fields, 7); SizeStep(Fields, 8);
    assert Fields[..9] == Fields;
  }

  /** The record's fields, in the order they are stored. */
  function FieldsOf(e: DirEnd): (vs: seq<nat>)
    ensures Fits(Fields, vs)
  {
    [e.signature1, e.signature2, e.diskNum, e.firstDisk,
     e.thisDiskCentralDirCount, e.totalCentralDirCount,
     e.centralDirSize, e.centralDirOffset, e.commentLength]
  }

  /** The record whose fields these are. */
  function OfFields(vs: seq<nat>): (e: DirEnd)
    requires Fits(Fields, vs)
    ensures FieldsOf(e) == vs
  {
    DirEnd(vs[0], vs[1], vs[2], vs[3], vs[4], vs[5], vs[6], vs[7], vs[8])
  }

  /** The signature is the game's own or plain zip's. */
  predicate SignatureKnown(c: Constants, e: DirEnd)
  {
    (e.signature1 == c.pakSignature1 && e.signature2 == c.pakSignature2End) ||
    (e.signature1 == c.zipSignature1 && e.signature2 == c.zipSignature2End)
  }

  /** A record Read returns: a known signature, one disk, and a non-empty directory on it. */
  predicate Accepted(c: Constants, e: DirEnd)
  {
    SignatureKnown(c, e) && e.diskNum == 0 && e.thisDiskCentralDirCount != 0 &&
    e.thisDiskCentralDirCount == e.totalCentralDirCount
  }

  /** The checks of Read, in the order it makes them, each with its exception's message. */
  function Check(c: Constants, e: DirEnd): (r: Result<DirEnd>)
    ensures r.Ok? <==> Accepted(c, e)
    ensures r.Ok? ==> r.value == e
  {
    if !SignatureKnown(c, e) then Err("bad EOCD signature")
    else if e.diskNum != 0 then Err("expected disk 0. multi disk not supported")
    else if e.thisDiskCentralDirCount == 0 then Err("unexpected empty dir count")
    else if e.thisDiskCentralDirCount != e.totalCentralDirCount then Err("expected matching counts")
    else Ok(e)
  }

  /** The record's fields as they read at position p, before any check. */
  function Fixed(d: seq<byte>, p: nat): DirEnd
    requires p + HeaderSize <= |d|
  {
    FieldsSize();
    ReadFits(d, p, Fields);
    OfFields(Layout.Read(d, p, Fields))
  }

  /** What Read makes of the bytes at position p. */
  function Decode(c: Constants, d: seq<byte>, p: nat): (r: Result<DirEnd>)
    ensures r.Ok? <==> p + HeaderSize <= |d| && Accepted(c, Fixed(d, p))
    ensures r.Ok? ==> r.value == Fixed(d, p)
  {
    if p + HeaderSize > |d| then Err(EndOfStream)
    else Check(c, Fixed(d, p))
  }

  /** Read: the nine fields, then the checks. */
  method Read(c: Constants, d: seq<byte>, p: nat) returns (r: Result<DirEnd>, q: nat)
    ensures r == Decode(c, d, p)
    ensures r.Ok? ==> q == p + HeaderSize
  {
    FieldsSize();
    var vs;
    vs, q :- ReadFields(d, p, Fields);
    ReadFits(d, p, Fields);
    var e := OfFields(vs);
    if e.signature1 != c.pakSignature1 || e.signature2 != c.pakSignature2End {
      if e.signature1 != c.zipSignature1 || e.signature2 != c.zipSignature2End {
        return Err("bad EOCD signature"), q;
      }
    }
    if e.diskNum != 0 {
      return Err("expected disk 0. multi disk not supported"), q;
    }
    if e.thisDiskCentralDirCount == 0 {
      return Err("unexpected empty dir count"), q;
    }
    if e.thisDiskCentralDirCount != e.totalCentralDirCount {
      return Err("expected matching counts"), q;
    }
    r := Ok(e);
  }

  /** The record's bytes as an archive writer lays them down. */
  function Encode(e: DirEnd): (s: seq<byte>)
    ensures |s| == HeaderSize
  {
    FieldsSize();
    Write(Fields, FieldsOf(e))
  }

  /** An accepted record reads back as itself wherever its bytes stand. */
  lemma DecodeEncoded(c: Constants, d: seq<byte>, p: nat, e: DirEnd)
    requires Accepted(c, e) && StandsAt(d, p, Encode(e))
    ensures Decode(c, d, p) == Ok(e)
  {
    FieldsSize();
    ReadStanding(d, p, Fields, FieldsOf(e));
    assert OfFields(FieldsOf(e)) == e;
  }

  /** A record Read accepts is exactly the bytes it was read from. */
  lemma EncodeDecoded(c: Constants, d: seq<byte>, p: nat)
    requires Decode(c, d, p).Ok?
    ensures p + HeaderSize <= |d| && Encode(Decode(c, d, p).value) == d[p..p + HeaderSize]
  {
    FieldsSize();
    WrittenRead(d, p, Fields);
  }
}
