/// PakUtil.cs: the normal form of a name inside a pak archive and the read of a name field.
module PakUtil {
  import opened Outcome
  import opened Bytes
  import opened Cursor
  import Ascii
  import Util

  /** U+FFFD, the character Encoding.UTF8 puts in place of bytes it cannot decode. */
  const Replacement: char := '\U{FFFD}'

  /**
   * Encoding.UTF8.GetString on the ASCII range: each byte below 0x80 is its own character;
   * any other byte becomes the replacement character.
   */
  function Utf8Text(bs: seq<byte>): (s: string)
    ensures |s| == |bs|
    ensures forall i :: 0 <= i < |bs| ==> (bs[i] < 0x80 ==> s[i] as int == bs[i])
    ensures forall i :: 0 <= i < |bs| ==> (bs[i] >= 0x80 ==> s[i] == Replacement)
  {
    seq(|bs|, i requires 0 <= i < |bs| => if bs[i] < 0x80 then bs[i] as char else Replacement)
  }

  /**
   * NormalizeFilename: lower case (the en-US culture and the invariant one agree on ASCII),
   * then '\\' replaced by '/'. It is the normal form of mesh names too.
   */
  function NormalizeFilename(orig: string): (r: string)
    ensures |r| == |orig|
    ensures forall i :: 0 <= i < |orig| ==> r[i] == (if orig[i] == '\\' then '/' else Ascii.Lower(orig[i]))
  {
    Util.NormalizeMeshFilename(orig)
  }

  /** Names that differ only in case or in the kind of slash normalise alike. */
  lemma NormalizeFilenameAlike(a: string, b: string)
    requires |a| == |b|
    requires forall i :: 0 <= i < |a| ==>
      (if a[i] == '\\' then '/' else Ascii.Lower(a[i])) == (if b[i] == '\\' then '/' else Ascii.Lower(b[i]))
    ensures NormalizeFilename(a) == NormalizeFilename(b)
  {
  }

  /** A normalised name is its own normal form. */
  lemma NormalizeFilenameIdempotent(orig: string)
    ensures NormalizeFilename(NormalizeFilename(orig)) == NormalizeFilename(orig)
  {
  }

  /** The name a field of these bytes holds. */
  function FilenameOf(bs: seq<byte>): string
  {
    NormalizeFilename(Utf8Text(bs))
  }

  /**
   * ReadFilename: BinaryReader.ReadBytes(length), which throws for a negative length and
   * hands back fewer bytes at the end of the stream, decoded and normalised.
   */
  method ReadFilename(d: seq<byte>, p: nat, length: int) returns (r: Result<string>, q: nat)
    requires p <= |d|
    ensures r.Ok? <==> length >= 0
    ensures r.Err? ==> r == Err("count is negative")
    ensures r.Ok? ==> q == Min(p + length, |d|) && r.value == FilenameOf(d[p..q])
  {
    var bs;
    bs, q :- ReadBytes(d, p, length);
    r := Ok(FilenameOf(bs));
  }
}
