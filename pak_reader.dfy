/// PakReader.cs: reading one pak archive, held as its bytes. PakReaderSlim finds the end
/// record, lists the central directory and reads a file's bytes, unmasking the first 32
/// bytes of files in the game's own variant; EncryptedAionPakReader unmasks them on the way
/// into the inflater; PakReader keeps the listing as a dictionary keyed by normalised name.
module PakReader {
  import opened Outcome
  import opened Bytes
  import opened Cursor
  import opened Layout
  import opened PakConstants
  import opened PakUtil
  import Ascii
  import PakCentralDirEnd
  import PakCentralDirFile
  import PakFileEntry

  type DirFile = PakCentralDirFile.DirFile
  type DirEnd = PakCentralDirEnd.DirEnd
  type FileEntry = PakFileEntry.FileEntry

  const SeekBeforeBegin := "an attempt was made to move the position before the beginning of the stream"
  const NotEncrypted := "zip stream is not encrypted!"
  const HeaderMismatch := "header mismatch"
  const UnsupportedMethod := "unsupported compression method"

  /** The bytes at the start of a file of the game's variant that the table masks. */
  const MaskedLength := 32

  /** The mask of byte i of a file of this compressed size: table2[tbloff + i]. */
  function MaskByte(c: Constants, compressedSize: u32, i: nat): bv8
    requires TableCovers(c) && i < MaskedLength
  {
    Bits(c.table2[TableOffset(compressedSize) + i])
  }

  /**
   * A file's bytes with the first 32 xor-ed with the mask: this unmasks stored bytes, and,
   * the xor being its own inverse, masks plain ones. Bytes after the first 32 stay as they are.
   */
  function Unmasked(c: Constants, compressedSize: u32, b: seq<byte>): (r: seq<byte>)
    requires TableCovers(c)
    ensures |r| == |b|
    ensures forall i :: MaskedLength <= i < |b| ==> r[i] == b[i]
  {
    seq(|b|, i requires 0 <= i < |b| =>
      if i < MaskedLength then XorByte(b[i], MaskByte(c, compressedSize, i)) else b[i])
  }

  /** Byte i of the first 32, unmasked: the stored byte xor-ed with its entry of table2. */
  lemma UnmaskedAt(c: Constants, compressedSize: u32, b: seq<byte>, i: nat)
    requires TableCovers(c) && i < |b| && i < MaskedLength
    ensures Unmasked(c, compressedSize, b)[i] == XorByte(b[i], Bits(c.table2[TableOffset(compressedSize) + i]))
  {
  }

  /** Unmasking twice gives back the bytes. */
  lemma UnmaskedTwice(c: Constants, compressedSize: u32, b: seq<byte>)
    requires TableCovers(c)
    ensures Unmasked(c, compressedSize, Unmasked(c, compressedSize, b)) == b
  {
    var u := Unmasked(c, compressedSize, b);
    forall i | 0 <= i < |b| ensures Unmasked(c, compressedSize, u)[i] == b[i] {
      if i < MaskedLength {
        XorByteTwice(b[i], MaskByte(c, compressedSize, i));
      }
    }
  }

  /** Unmasking a prefix gives the prefix of the unmasked bytes. */
  lemma UnmaskedPrefix(c: Constants, compressedSize: u32, b: seq<byte>, n: nat)
    requires TableCovers(c) && n <= |b|
    ensures Unmasked(c, compressedSize, b[..n]) == Unmasked(c, compressedSize, b)[..n]
  {
    var u := Unmasked(c, compressedSize, b);
    forall i | 0 <= i < n ensures Unmasked(c, compressedSize, b[..n])[i] == u[..n][i] {
      assert b[..n][i] == b[i];
    }
  }

  /** DecodeAionBytes: the first 32 bytes of the array (all, if fewer) xor-ed with the mask, in place. */
  method DecodeAionBytes(c: Constants, dirfile: DirFile, bytesToModify: array<byte>)
    requires TableCovers(c)
    modifies bytesToModify
    ensures bytesToModify[..] == Unmasked(c, dirfile.compressedSize, old(bytesToModify[..]))
  {
    var tbloff := TableOffset(dirfile.compressedSize);
    var i := 0;
    while i < bytesToModify.Length && i < MaskedLength
      invariant 0 <= i <= bytesToModify.Length && i <= MaskedLength
      invariant forall k :: 0 <= k < i ==>
        bytesToModify[k] == XorByte(old(bytesToModify[k]), MaskByte(c, dirfile.compressedSize, k))
      invariant forall k :: i <= k < bytesToModify.Length ==> bytesToModify[k] == old(bytesToModify[k])
    {
      bytesToModify[i] := XorByte(bytesToModify[i], Bits(c.table2[tbloff + i]));
      i := i + 1;
    }
  }

  /**
   * How many bytes one EncryptedAionPakReader.Read hands back: no more than asked for and
   * than are left, and, while in the masked part, no further than its end.
   */
  function ReadCount(position: nat, count: nat, remaining: nat): (n: nat)
    ensures n <= count && n <= remaining
    ensures position < MaskedLength ==> position + n <= MaskedLength
    ensures n < count && n < remaining ==> position + n == MaskedLength
  {
    if position < MaskedLength then Min(Min(count, MaskedLength - position), remaining)
    else Min(count, remaining)
  }

  /**
   * EncryptedAionPakReader: a read-only stream over the archive's bytes from the position it
   * was opened at, yielding them unmasked. underlyingPosition is m_underlying.Position.
   */
  class EncryptedAionPakReader {
    const constants: Constants
    const underlying: seq<byte>
    const dirfile: DirFile
    const startPosition: nat
    var underlyingPosition: nat
    var currentPosition: nat

    /** Both positions advance together, within the archive. */
    ghost predicate Valid()
      reads this
    {
      TableCovers(constants) && startPosition <= |underlying| &&
      underlyingPosition == startPosition + currentPosition <= |underlying|
    }

    /** All the stream yields: the archive from the start position on, unmasked. */
    ghost function Plain(): (s: seq<byte>)
      requires TableCovers(constants) && startPosition <= |underlying|
      ensures |s| == |underlying| - startPosition
    {
      Unmasked(constants, dirfile.compressedSize, underlying[startPosition..])
    }

    /** The constructor, for an entry of the game's variant (see OpenEncrypted for the check). */
    constructor(c: Constants, stream: seq<byte>, position: nat, dirfile: DirFile)
      requires TableCovers(c) && position <= |stream| && dirfile.isAionFormat
      ensures Valid()
      ensures constants == c && underlying == stream && this.dirfile == dirfile
      ensures startPosition == position && underlyingPosition == position && currentPosition == 0
    {
      constants := c;
      underlying := stream;
      startPosition := position;
      underlyingPosition := position;
      this.dirfile := dirfile;
      currentPosition := 0;
    }

    /**
     * Read: the next ReadCount bytes of Plain() into buffer[offset..]; the rest of the
     * buffer is untouched.
     */
    method Read(buffer: array<byte>, offset: int, count: int) returns (bytesRead: int)
      requires Valid() && 0 <= offset && 0 <= count && offset + count <= buffer.Length
      modifies this, buffer
      ensures Valid()
      ensures bytesRead == ReadCount(old(currentPosition), count, |underlying| - old(underlyingPosition))
      ensures currentPosition == old(currentPosition) + bytesRead
      ensures buffer[offset..offset + bytesRead] == Plain()[old(currentPosition)..currentPosition]
      ensures buffer[..offset] == old(buffer[..offset])
      ensures buffer[offset + bytesRead..] == old(buffer[offset + bytesRead..])
    {
      if currentPosition < MaskedLength {
        bytesRead := ReadMasked(buffer, offset, count);
        return;
      }
      ghost var cur := currentPosition;
      ghost var pos := underlyingPosition;
      ghost var plain := Plain();
      bytesRead := ReadUnderlying(buffer, offset, count);
      currentPosition := currentPosition + bytesRead;
      assert plain == Plain();
      forall k | 0 <= k < bytesRead
        ensures buffer[offset..offset + bytesRead][k] == plain[cur..currentPosition][k]
      {
        assert buffer[offset..offset + bytesRead][k] == underlying[pos..underlyingPosition][k];
        assert underlying[startPosition..][cur + k] == underlying[pos + k];
      }
    }

    /** The byte-by-byte loop over the masked part: ReadByte, xor, store, until 32, count or the end. */
    method ReadMasked(buffer: array<byte>, offset: nat, count: nat) returns (bytesRead: nat)
      requires Valid() && currentPosition < MaskedLength && offset + count <= buffer.Length
      modifies this, buffer
      ensures Valid()
      ensures bytesRead == ReadCount(old(currentPosition), count, |underlying| - old(underlyingPosition))
      ensures currentPosition == old(currentPosition) + bytesRead
      ensures buffer[offset..offset + bytesRead] == Plain()[old(currentPosition)..currentPosition]
      ensures buffer[..offset] == old(buffer[..offset])
      ensures buffer[offset + bytesRead..] == old(buffer[offset + bytesRead..])
    {
      var tbloff := TableOffset(dirfile.compressedSize);
      ghost var cur := currentPosition;
      ghost var plain := Plain();
      bytesRead := 0;
      while currentPosition < MaskedLength && bytesRead < count
        invariant underlyingPosition == startPosition + currentPosition <= |underlying|
        invariant currentPosition == cur + bytesRead <= MaskedLength && bytesRead <= count
        invariant buffer[offset..offset + bytesRead] == plain[cur..currentPosition]
        invariant buffer[..offset] == old(buffer[..offset])
        invariant buffer[offset + bytesRead..] == old(buffer[offset + bytesRead..])
        decreases count - bytesRead
      {
        var ch := ReadByte();
        if ch == -1 {
          break;
        }
        Unmask(buffer, offset, bytesRead, ch, tbloff, cur, plain);
        bytesRead := bytesRead + 1;
      }
    }

    /**
     * The rest of a turn of ReadMasked's loop, once ReadByte has returned ch: ch xor-ed with
     * its mask goes after the bytesRead bytes already stored, and the position moves on.
     */
    method Unmask(buffer: array<byte>, offset: nat, bytesRead: nat, ch: byte, tbloff: nat,
                  ghost cur: nat, ghost plain: seq<byte>)
      requires TableCovers(constants) && startPosition <= |underlying| && plain == Plain()
      requires tbloff == TableOffset(dirfile.compressedSize)
      requires currentPosition == cur + bytesRead < MaskedLength
      requires startPosition + currentPosition < |underlying| && ch == underlying[startPosition + currentPosition]
      requires offset + bytesRead < buffer.Length
      requires buffer[offset..offset + bytesRead] == plain[cur..currentPosition]
      modifies this`currentPosition, buffer
      ensures currentPosition == old(currentPosition) + 1
      ensures buffer[offset..offset + bytesRead + 1] == plain[cur..currentPosition]
      ensures buffer[..offset] == old(buffer[..offset])
      ensures buffer[offset + bytesRead + 1..] == old(buffer[offset + bytesRead + 1..])
    {
      var b := XorByte(ch, Bits(constants.table2[tbloff + currentPosition]));
      UnmaskedAt(constants, dirfile.compressedSize, underlying[startPosition..], currentPosition);
      assert b == plain[currentPosition];
      buffer[offset + bytesRead] := b;
      currentPosition := currentPosition + 1;
      assert buffer[offset..offset + bytesRead + 1] == old(buffer[offset..offset + bytesRead]) + [b];
    }

    /** m_underlying.ReadByte: the archive's next byte, one position on, or -1 at its end. */
    method ReadByte() returns (ch: int)
      requires underlyingPosition <= |underlying|
      modifies this`underlyingPosition
      ensures old(underlyingPosition) < |underlying| ==>
        ch == underlying[old(underlyingPosition)] && underlyingPosition == old(underlyingPosition) + 1
      ensures old(underlyingPosition) == |underlying| ==> ch == -1 && underlyingPosition == old(underlyingPosition)
    {
      if underlyingPosition == |underlying| {
        return -1;
      }
      ch := underlying[underlyingPosition];
      underlyingPosition := underlyingPosition + 1;
    }

    /** m_underlying.Read: as many of the bytes asked for as the archive still has. */
    method ReadUnderlying(buffer: array<byte>, offset: nat, count: nat) returns (n: nat)
      requires underlyingPosition <= |underlying| && offset + count <= buffer.Length
      modifies this`underlyingPosition, buffer
      ensures n == Min(count, |underlying| - old(underlyingPosition))
      ensures underlyingPosition == old(underlyingPosition) + n
      ensures buffer[offset..offset + n] == underlying[old(underlyingPosition)..underlyingPosition]
      ensures buffer[..offset] == old(buffer[..offset])
      ensures buffer[offset + n..] == old(buffer[offset + n..])
    {
      var pos := underlyingPosition;
      n := Min(count, |underlying| - pos);
      var k := 0;
      while k < n
        invariant 0 <= k <= n
        invariant forall j :: offset <= j < offset + k ==> buffer[j] == underlying[pos + (j - offset)]
        invariant forall j :: 0 <= j < offset ==> buffer[j] == old(buffer[j])
        invariant forall j :: offset + k <= j < buffer.Length ==> buffer[j] == old(buffer[j])
      {
        buffer[offset + k] := underlying[pos + k];
        k := k + 1;
      }
      underlyingPosition := pos + n;
      assert buffer[offset..offset + n] == underlying[old(underlyingPosition)..underlyingPosition];
      assert buffer[..offset] == old(buffer[..offset]);
      assert buffer[offset + n..] == old(buffer[offset + n..]);
    }
  }

  /** The EncryptedAionPakReader constructor with its check: only entries of the game's variant. */
  method OpenEncrypted(c: Constants, stream: seq<byte>, position: nat, dirfile: DirFile)
    returns (r: Result<EncryptedAionPakReader>)
    requires TableCovers(c) && position <= |stream|
    ensures r.Ok? <==> dirfile.isAionFormat
    ensures r.Err? ==> r.error == NotEncrypted
    ensures r.Ok? ==> (fresh(r.value) && r.value.Valid() && r.value.currentPosition == 0 &&
      r.value.Plain() == Unmasked(c, dirfile.compressedSize, stream[position..]))
  {
    if !dirfile.isAionFormat {
      return Err(NotEncrypted);
    }
    var s := new EncryptedAionPakReader(c, stream, position, dirfile);
    r := Ok(s);
  }

  /** What a stream of an entry's data yields: the bytes, unmasked for the game's variant. */
  function DataStream(c: Constants, f: DirFile, data: seq<byte>): (s: seq<byte>)
    requires TableCovers(c)
    ensures |s| == |data|
  {
    if f.isAionFormat then Unmasked(c, f.compressedSize, data) else data
  }

  /** reader.ReadBytes(count) on a stream of these bytes, from its start. */
  function Take(s: seq<byte>, count: int): (r: Result<seq<byte>>)
    ensures r.Ok? <==> count >= 0
    ensures r.Ok? ==> r.value == s[..Min(count, |s|)]
  {
    if count < 0 then Err("count is negative") else Ok(s[..Min(count, |s|)])
  }

  /** The central directory's entry and the local header agree, as ReadFileBytes demands. */
  predicate Matches(f: DirFile, h: FileEntry)
  {
    Ascii.EqualsIgnoreCase(f.filename, h.filename) && f.compressedSize == h.compressedSize &&
    f.uncompressedSize == h.uncompressedSize && f.compressionMethod == h.compressionMethod
  }

  /**
   * ReadFileBytes on an archive: the local header at the entry's offset, which must match
   * the entry; then, stored (method 0), compressedSize bytes unmasked for the game's variant,
   * or, deflated (method 8), uncompressedSize bytes of what inflate makes of the data stream.
   * inflate stands for DeflateStream: the bytes it delivers from its input, or its error.
   */
  function FileBytes(c: Constants, d: seq<byte>, f: DirFile, inflate: seq<byte> -> Result<seq<byte>>)
    : (r: Result<seq<byte>>)
    requires TableCovers(c)
    ensures r.Ok? ==> f.compressionMethod == 0 || f.compressionMethod == 8
    ensures r.Ok? && f.compressionMethod == 0 ==> |r.value| <= f.compressedSize
    ensures r.Ok? && f.compressionMethod == 8 ==> |r.value| <= f.uncompressedSize
  {
    match PakFileEntry.Decode(c, d, f.localHeaderOffset)
    case Err(e) => Err(e)
    case Ok((h, q)) =>
      if !Matches(f, h) then Err(HeaderMismatch)
      else if f.compressionMethod == 0 then
        match Take(d[q..], Signed32(f.compressedSize))
        case Err(e) => Err(e)
        case Ok(b) => Ok(DataStream(c, f, b))
      else if f.compressionMethod == 8 then
        match inflate(DataStream(c, f, d[q..]))
        case Err(e) => Err(e)
        case Ok(out) => Take(out, Signed32(f.uncompressedSize))
      else Err(UnsupportedMethod)
  }

  /** A stored file is the compressedSize bytes after the local header, unmasked for the game's variant. */
  lemma StoredRead(c: Constants, d: seq<byte>, f: DirFile, inflate: seq<byte> -> Result<seq<byte>>)
    requires TableCovers(c) && f.compressionMethod == 0 && f.compressedSize < 0x8000_0000
    requires PakFileEntry.Decode(c, d, f.localHeaderOffset).Ok?
    requires Matches(f, PakFileEntry.Decode(c, d, f.localHeaderOffset).value.0)
    ensures var q := PakFileEntry.Decode(c, d, f.localHeaderOffset).value.1;
      FileBytes(c, d, f, inflate) == Ok(DataStream(c, f, d[q..][..Min(f.compressedSize, |d[q..]|)]))
  {
  }

  /**
   * A stored file reads back: where a matching local header stands at the entry's offset,
   * followed by the file masked as the format stores it, ReadFileBytes gives the file.
   */
  lemma StoredRoundTrip(c: Constants, d: seq<byte>, f: DirFile, h: FileEntry, name: seq<byte>,
                        plain: seq<byte>, inflate: seq<byte> -> Result<seq<byte>>)
    requires TableCovers(c)
    requires PakFileEntry.Accepted(c, h) && PakFileEntry.Describes(h, name) && Matches(f, h)
    requires f.compressionMethod == 0 && f.compressedSize == |plain| < 0x8000_0000
    requires StandsAt(d, f.localHeaderOffset, PakFileEntry.Encode(h, name) + DataStream(c, f, plain))
    ensures FileBytes(c, d, f, inflate) == Ok(plain)
  {
    var header := PakFileEntry.Encode(h, name);
    var stored := DataStream(c, f, plain);
    StandsSplit(d, f.localHeaderOffset, header, stored);
    PakFileEntry.DecodeEncoded(c, d, f.localHeaderOffset, h, name);
    var q := f.localHeaderOffset + |header|;
    StandingBytes(d, q, stored);
    StoredRead(c, d, f, inflate);
    UnmaskedTwice(c, f.compressedSize, plain);
  }

  /** Bytes standing at q are what follows q. */
  lemma StandingBytes(d: seq<byte>, q: nat, e: seq<byte>)
    requires StandsAt(d, q, e)
    ensures q <= |d| && d[q..][..|e|] == e
  {
    PartAt(d, q, e, 0, |e|);
    assert e[0..|e|] == e;
  }

  /** A deflated file is the first uncompressedSize bytes inflate makes of the unmasked data. */
  lemma DeflatedRead(c: Constants, d: seq<byte>, f: DirFile, inflate: seq<byte> -> Result<seq<byte>>)
    requires TableCovers(c) && f.compressionMethod == 8 && f.uncompressedSize < 0x8000_0000
    requires PakFileEntry.Decode(c, d, f.localHeaderOffset).Ok?
    requires Matches(f, PakFileEntry.Decode(c, d, f.localHeaderOffset).value.0)
    ensures var q := PakFileEntry.Decode(c, d, f.localHeaderOffset).value.1;
      var out := inflate(DataStream(c, f, d[q..]));
      FileBytes(c, d, f, inflate) == if out.Err? then Err(out.error)
        else Ok(out.value[..Min(f.uncompressedSize, |out.value|)])
  {
  }

  /** ReadCentralDirEnd: the end record in the archive's last 22 bytes. */
  function CentralDirEnd(c: Constants, d: seq<byte>): (r: Result<DirEnd>)
    ensures r.Ok? ==> |d| >= PakCentralDirEnd.HeaderSize && PakCentralDirEnd.Accepted(c, r.value)
    ensures |d| < PakCentralDirEnd.HeaderSize ==> r == Err(SeekBeforeBegin)
  {
    if |d| < PakCentralDirEnd.HeaderSize then Err(SeekBeforeBegin)
    else PakCentralDirEnd.Decode(c, d, |d| - PakCentralDirEnd.HeaderSize)
  }

  method ReadCentralDirEnd(c: Constants, d: seq<byte>) returns (r: Result<DirEnd>)
    ensures r == CentralDirEnd(c, d)
  {
    if |d| < PakCentralDirEnd.HeaderSize {
      return Err(SeekBeforeBegin);
    }
    var q;
    r, q := PakCentralDirEnd.Read(c, d, |d| - PakCentralDirEnd.HeaderSize);
  }

  /**
   * ReadCentralDir: n entries read one after another from position p, failing at the first
   * failure. CentralDir and CentralDirNext are a pair so that each unfolding exposes one entry.
   */
  function CentralDir(c: Constants, d: seq<byte>, p: nat, n: nat): (r: Result<seq<DirFile>>)
    ensures r.Ok? ==> |r.value| == n
    ensures r.Ok? ==> forall i :: 0 <= i < n ==> PakCentralDirFile.Accepted(c, r.value[i])
    decreases n, 1
  {
    if n == 0 then Ok([]) else CentralDirNext(c, d, p, n)
  }

  /** The first of n > 0 entries, then the others. */
  function CentralDirNext(c: Constants, d: seq<byte>, p: nat, n: nat): (r: Result<seq<DirFile>>)
    requires n > 0
    ensures r.Ok? ==> |r.value| == n
    ensures r.Ok? ==> forall i :: 0 <= i < n ==> PakCentralDirFile.Accepted(c, r.value[i])
    decreases n, 0
  {
    match PakCentralDirFile.Decode(c, d, p)
    case Err(e) => Err(e)
    case Ok((f, q)) =>
      match CentralDir(c, d, q, n - 1)
      case Err(e) => Err(e)
      case Ok(fs) => Ok([f] + fs)
  }

  /** One entry read: the directory is that entry before the rest, or the entry's failure. */
  lemma CentralDirStep(c: Constants, d: seq<byte>, p: nat, n: nat)
    requires n > 0
    ensures PakCentralDirFile.Decode(c, d, p).Err? ==>
      CentralDir(c, d, p, n) == Err(PakCentralDirFile.Decode(c, d, p).error)
    ensures PakCentralDirFile.Decode(c, d, p).Ok? ==>
      var (f, q) := PakCentralDirFile.Decode(c, d, p).value;
      CentralDir(c, d, p, n) == Prepended([f], CentralDir(c, d, q, n - 1))
  {
  }

  /** One central-directory entry of the n still to read, and what it leaves for the rest. */
  method ReadDirEntry(c: Constants, d: seq<byte>, p: nat, n: nat) returns (r: Result<DirFile>, q: nat)
    requires n > 0
    ensures r.Err? ==> CentralDir(c, d, p, n) == Err(r.error)
    ensures r.Ok? ==> CentralDir(c, d, p, n) == Prepended([r.value], CentralDir(c, d, q, n - 1))
  {
    r, q := PakCentralDirFile.Read(c, d, p);
    CentralDirStep(c, d, p, n);
  }

  /** The loop of ReadCentralDir: n entries from offset p, in order. */
  method ReadDirEntries(c: Constants, d: seq<byte>, p: nat, n: nat) returns (r: Result<seq<DirFile>>)
    ensures r == CentralDir(c, d, p, n)
  {
    var result: seq<DirFile> := [];
    var q: nat := p;
    var i: nat := 0;
    PrependedEmpty(CentralDir(c, d, q, n));
    while i < n
      invariant i <= n
      invariant CentralDir(c, d, p, n) == Prepended(result, CentralDir(c, d, q, n - i))
    {
      var dirfile, q2 := ReadDirEntry(c, d, q, n - i);
      if dirfile.Err? {
        return Err(dirfile.error);
      }
      PrependedStep(result, dirfile.value, CentralDir(c, d, q2, n - i - 1));
      result := result + [dirfile.value];
      q := q2;
      i := i + 1;
    }
    assert result + [] == result;
    r := Ok(result);
  }

  function Prepended(acc: seq<DirFile>, r: Result<seq<DirFile>>): Result<seq<DirFile>>
  {
    match r
    case Err(e) => Err(e)
    case Ok(fs) => Ok(acc + fs)
  }

  lemma PrependedEmpty(r: Result<seq<DirFile>>)
    ensures Prepended([], r) == r
  {
    if r.Ok? {
      assert [] + r.value == r.value;
    }
  }

  lemma PrependedStep(acc: seq<DirFile>, f: DirFile, r: Result<seq<DirFile>>)
    ensures Prepended(acc, Prepended([f], r)) == Prepended(acc + [f], r)
  {
    if r.Ok? {
      assert acc + ([f] + r.value) == (acc + [f]) + r.value;
    }
  }

  /** Every entry read from a central directory carries its name in normal form. */
  lemma {:induction false} CentralDirNamesNormal(c: Constants, d: seq<byte>, p: nat, n: nat)
    requires CentralDir(c, d, p, n).Ok?
    ensures forall i :: 0 <= i < n ==>
      NormalizeFilename(CentralDir(c, d, p, n).value[i].filename) == CentralDir(c, d, p, n).value[i].filename
    decreases n
  {
    if n > 0 {
      PakCentralDirFile.DecodedNameNormal(c, d, p);
      var q := PakCentralDirFile.Decode(c, d, p).value.1;
      CentralDirNamesNormal(c, d, q, n - 1);
    }
  }

  /** Names of the entries. */
  function Names(dirs: seq<DirFile>): set<string>
  {
    set i | 0 <= i < |dirs| :: dirs[i].filename
  }

  predicate DistinctNames(dirs: seq<DirFile>)
  {
    forall i, j :: 0 <= i < j < |dirs| ==> dirs[i].filename != dirs[j].filename
  }

  /** Dictionary.Add of each entry under its name in turn, into a dictionary holding m. */
  function ListingFrom(m: map<string, DirFile>, dirs: seq<DirFile>): (r: Result<map<string, DirFile>>)
    ensures r.Err? ==> r.error == DuplicateKey
    decreases |dirs|
  {
    if dirs == [] then Ok(m)
    else if dirs[0].filename in m then Err(DuplicateKey)
    else ListingFrom(m[dirs[0].filename := dirs[0]], dirs[1..])
  }

  /** LoadFileListing's dictionary: every entry added under its name to an empty one. */
  function Listing(dirs: seq<DirFile>): Result<map<string, DirFile>>
  {
    ListingFrom(map[], dirs)
  }

  /** The names of a sequence of entries: the first one's and the others'. */
  lemma NamesCons(dirs: seq<DirFile>)
    requires dirs != []
    ensures Names(dirs) == {dirs[0].filename} + Names(dirs[1..])
  {
    forall s | s in Names(dirs) ensures s in {dirs[0].filename} + Names(dirs[1..]) {
      var i :| 0 <= i < |dirs| && dirs[i].filename == s;
      if i > 0 {
        assert dirs[1..][i - 1].filename == s;
      }
    }
    forall s | s in Names(dirs[1..]) ensures s in Names(dirs) {
      var i :| 0 <= i < |dirs[1..]| && dirs[1..][i].filename == s;
      assert dirs[i + 1].filename == s;
    }
  }

  /** Entries have distinct names when the others do and the first one's is not among theirs. */
  lemma DistinctCons(dirs: seq<DirFile>)
    requires dirs != []
    ensures DistinctNames(dirs) <==> DistinctNames(dirs[1..]) && dirs[0].filename !in Names(dirs[1..])
  {
    var rest := dirs[1..];
    if DistinctNames(dirs) {
      forall i, j | 0 <= i < j < |rest| ensures rest[i].filename != rest[j].filename {
        assert rest[i] == dirs[i + 1] && rest[j] == dirs[j + 1];
      }
      forall i | 0 <= i < |rest| ensures rest[i].filename != dirs[0].filename {
        assert rest[i] == dirs[i + 1];
      }
    }
    if DistinctNames(rest) && dirs[0].filename !in Names(rest) {
      forall i, j | 0 <= i < j < |dirs| ensures dirs[i].filename != dirs[j].filename {
        assert dirs[j] == rest[j - 1];
        if i > 0 {
          assert dirs[i] == rest[i - 1];
        }
      }
    }
  }

  /**
   * Adding the entries to a dictionary holding m succeeds exactly when their names are
   * distinct and none is already a key of m.
   */
  lemma {:induction false} ListingFromOk(m: map<string, DirFile>, dirs: seq<DirFile>)
    ensures ListingFrom(m, dirs).Ok? <==> DistinctNames(dirs) && Names(dirs) !! m.Keys
    decreases |dirs|
  {
    if dirs != [] {
      var f := dirs[0];
      ListingFromOk(m[f.filename := f], dirs[1..]);
      NamesCons(dirs);
      DistinctCons(dirs);
    }
  }

  /**
   * When adding succeeds, the dictionary holds m's entries and each added entry under its own
   * name, and nothing else.
   */
  lemma {:induction false} ListingFromContents(m: map<string, DirFile>, dirs: seq<DirFile>)
    requires ListingFrom(m, dirs).Ok?
    ensures var l := ListingFrom(m, dirs).value;
      l.Keys == m.Keys + Names(dirs) &&
      (forall k :: k in m ==> l[k] == m[k]) &&
      (forall i :: 0 <= i < |dirs| ==> l[dirs[i].filename] == dirs[i])
    decreases |dirs|
  {
    if dirs == [] {
      assert Names(dirs) == {};
    } else {
      var f := dirs[0];
      var rest := dirs[1..];
      var l := ListingFrom(m, dirs).value;
      ListingFromContents(m[f.filename := f], rest);
      NamesCons(dirs);
      forall i | 0 <= i < |dirs| ensures l[dirs[i].filename] == dirs[i] {
        if i > 0 {
          assert dirs[i] == rest[i - 1];
        }
      }
    }
  }

  /**
   * The listing fails (with DuplicateKey) exactly when two entries share a name; otherwise it
   * holds each entry under its own name and nothing else.
   */
  lemma ListingSpec(dirs: seq<DirFile>)
    ensures Listing(dirs).Ok? <==> DistinctNames(dirs)
    ensures Listing(dirs).Err? ==> Listing(dirs).error == DuplicateKey
    ensures Listing(dirs).Ok? ==>
      Listing(dirs).value.Keys == Names(dirs) &&
      forall i :: 0 <= i < |dirs| ==> Listing(dirs).value[dirs[i].filename] == dirs[i]
  {
    ListingFromOk(map[], dirs);
    if Listing(dirs).Ok? {
      ListingFromContents(map[], dirs);
    }
  }

  /** A listing's result, or the failure that came before it. */
  function ListingOf(dirs: Result<seq<DirFile>>): Result<map<string, DirFile>>
  {
    match dirs
    case Err(e) => Err(e)
    case Ok(ds) => Listing(ds)
  }

  /** Files[NormalizeFilename(filename)]: the entry under the normalised name. */
  function FileOf(files: Option<map<string, DirFile>>, filename: string): (r: Result<DirFile>)
    ensures files.Some? && NormalizeFilename(filename) in files.value ==>
      r == Ok(files.value[NormalizeFilename(filename)])
    ensures files.Some? && NormalizeFilename(filename) !in files.value ==> r == Err(KeyNotFound)
  {
    match files
    case None => Err(NullReference)
    case Some(m) =>
      var key := NormalizeFilename(filename);
      if key in m then Ok(m[key]) else Err(KeyNotFound)
  }

  /**
   * PakReaderSlim over an archive's bytes. open is false once Close has dropped the file
   * stream and its reader; every read after that fails with NullReference.
   */
  class PakReaderSlim {
    const constants: Constants
    const archive: seq<byte>
    const eocd: DirEnd
    var open: bool

    constructor(c: Constants, d: seq<byte>, eocd: DirEnd)
      ensures constants == c && archive == d && this.eocd == eocd && open
    {
      constants := c;
      archive := d;
      this.eocd := eocd;
      open := true;
    }

    method Close()
      modifies this
      ensures !open
    {
      open := false;
    }

    /** ReadCentralDir: thisDiskCentralDirCount entries from centralDirOffset, in order. */
    method ReadCentralDir() returns (r: Result<seq<DirFile>>)
      ensures r == if open then CentralDir(constants, archive, eocd.centralDirOffset, eocd.thisDiskCentralDirCount)
        else Err(NullReference)
    {
      if !open {
        return Err(NullReference);
      }
      r := ReadDirEntries(constants, archive, eocd.centralDirOffset, eocd.thisDiskCentralDirCount);
    }

    /** ReadFileBytes: seek to the local header, check it against the entry, read the data. */
    method ReadFileBytes(dirfile: DirFile, inflate: seq<byte> -> Result<seq<byte>>) returns (r: Result<seq<byte>>)
      requires TableCovers(constants)
      ensures r == if open then FileBytes(constants, archive, dirfile, inflate) else Err(NullReference)
    {
      if !open {
        return Err(NullReference);
      }
      var fileheader, q :- PakFileEntry.Read(constants, archive, dirfile.localHeaderOffset);
      if !Matches(dirfile, fileheader) {
        return Err(HeaderMismatch);
      }
      if dirfile.compressionMethod == 0 {
        var bytes, q2 :- ReadBytes(archive, q, Signed32(dirfile.compressedSize));
        assert bytes == archive[q..][..Min(Signed32(dirfile.compressedSize), |archive[q..]|)];
        var result := new byte[|bytes|](k requires 0 <= k < |bytes| => bytes[k]);
        assert result[..] == bytes;
        if dirfile.isAionFormat {
          DecodeAionBytes(constants, dirfile, result);
        }
        r := Ok(result[..]);
      } else if dirfile.compressionMethod == 8 {
        var zip := DataStream(constants, dirfile, archive[q..]);
        var inflated :- inflate(zip);
        r := Take(inflated, Signed32(dirfile.uncompressedSize));
      } else {
        r := Err(UnsupportedMethod);
      }
    }
  }

  /** The PakReaderSlim constructor: open the archive and read its end record. */
  method OpenSlim(c: Constants, d: seq<byte>) returns (r: Result<PakReaderSlim>)
    ensures r.Ok? <==> CentralDirEnd(c, d).Ok?
    ensures r.Err? ==> r.error == CentralDirEnd(c, d).error
    ensures r.Ok? ==> (fresh(r.value) && r.value.open && r.value.constants == c &&
      r.value.archive == d && r.value.eocd == CentralDirEnd(c, d).value)
  {
    var eocd :- ReadCentralDirEnd(c, d);
    var s := new PakReaderSlim(c, d, eocd);
    r := Ok(s);
  }

  /** The listing a reader over this slim reader loads. */
  function Loaded(s: PakReaderSlim): Result<map<string, DirFile>>
    reads s
  {
    ListingOf(if s.open then CentralDir(s.constants, s.archive, s.eocd.centralDirOffset, s.eocd.thisDiskCentralDirCount)
      else Err(NullReference))
  }

  /** What opening a PakReader on an archive leaves in Files, or the failure on the way. */
  function Opened(c: Constants, d: seq<byte>): Result<map<string, DirFile>>
  {
    match CentralDirEnd(c, d)
    case Err(e) => Err(e)
    case Ok(e) => ListingOf(CentralDir(c, d, e.centralDirOffset, e.thisDiskCentralDirCount))
  }

  /**
   * Every file an opened reader lists sits under its own name, in normal form, so GetFile
   * finds it by any spelling that normalises to that name.
   */
  lemma OpenedFileFound(c: Constants, d: seq<byte>, key: string, filename: string)
    requires Opened(c, d).Ok? && key in Opened(c, d).value && NormalizeFilename(filename) == key
    ensures Opened(c, d).value[key].filename == key
    ensures FileOf(Some(Opened(c, d).value), filename) == Ok(Opened(c, d).value[key])
    ensures FileOf(Some(Opened(c, d).value), key) == Ok(Opened(c, d).value[key])
  {
    var e := CentralDirEnd(c, d).value;
    var n := e.thisDiskCentralDirCount;
    var dirs := CentralDir(c, d, e.centralDirOffset, n).value;
    ListingSpec(dirs);
    CentralDirNamesNormal(c, d, e.centralDirOffset, n);
    var i :| 0 <= i < |dirs| && dirs[i].filename == key;
    assert NormalizeFilename(key) == key;
  }

  /** PakReader: the slim reader and Files, the listing by name; Files is None once closed. */
  class PakReader {
    const reader: PakReaderSlim
    var files: Option<map<string, DirFile>>

    constructor(reader: PakReaderSlim)
      ensures this.reader == reader && files == None
    {
      this.reader := reader;
      files := None;
    }

    /** LoadFileListing: add every entry of the central directory to a new dictionary, then keep it. */
    method LoadFileListing() returns (r: Result<()>)
      modifies this
      ensures r.Ok? <==> Loaded(reader).Ok?
      ensures r.Err? ==> r.error == Loaded(reader).error && files == old(files)
      ensures r.Ok? ==> files == Some(Loaded(reader).value)
    {
      var dirs :- reader.ReadCentralDir();
      var result: map<string, DirFile> := map[];
      var i := 0;
      while i < |dirs|
        invariant 0 <= i <= |dirs|
        invariant Listing(dirs) == ListingFrom(result, dirs[i..])
      {
        var cd := dirs[i];
        assert dirs[i..][1..] == dirs[i + 1..];
        if cd.filename in result {
          return Err(DuplicateKey);
        }
        result := result[cd.filename := cd];
        i := i + 1;
      }
      files := Some(result);
      r := Ok(());
    }

    /** GetFile: the bytes of the entry listed under the normalised name. */
    method GetFile(filename: string, inflate: seq<byte> -> Result<seq<byte>>) returns (r: Result<seq<byte>>)
      requires TableCovers(reader.constants)
      ensures r == match FileOf(files, filename)
        case Err(e) => Err(e)
        case Ok(f) => if reader.open then FileBytes(reader.constants, reader.archive, f, inflate) else Err(NullReference)
    {
      if files.None? {
        return Err(NullReference);
      }
      var key := NormalizeFilename(filename);
      if key !in files.value {
        return Err(KeyNotFound);
      }
      r := reader.ReadFileBytes(files.value[key], inflate);
    }

    method Close()
      modifies this, reader
      ensures files == None && !reader.open
    {
      files := None;
      reader.Close();
    }
  }

  /** The PakReader constructor: open the slim reader and load the listing. */
  method Open(c: Constants, d: seq<byte>) returns (r: Result<PakReader>)
    ensures r.Ok? <==> Opened(c, d).Ok?
    ensures r.Err? ==> r.error == Opened(c, d).error
    ensures r.Ok? ==> fresh(r.value) && r.value.files == Some(Opened(c, d).value) && r.value.reader.open
  {
    var slim :- OpenSlim(c, d);
    var pr := new PakReader(slim);
    var loaded := pr.LoadFileListing();
    if loaded.Err? {
      return Err(loaded.error);
    }
    r := Ok(pr);
  }
}
