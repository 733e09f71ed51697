/// The constants of the Aion pak format: the two halves of each record signature, for the
/// game's own variant and for plain zip, and the table whose bytes mask the first 32 bytes
/// of a stored file. The file that defines them is not part of this model, so they are
/// a value every reader of the format is given.
module PakConstants {
  import opened Bytes

  datatype Constants = Constants(
    pakSignature1: u16, pakSignature2End: u16, pakSignature2Dir: u16, pakSignature2File: u16,
    zipSignature1: u16, zipSignature2End: u16, zipSignature2Dir: u16, zipSignature2File: u16,
    table2: seq<byte>)

  /** The mask offset of a file, `(int)compressedSize & 0x3FF`: the low ten bits of its size. */
  function TableOffset(compressedSize: u32): (o: nat)
    ensures o < 0x400 && (compressedSize - o) % 0x400 == 0
  {
    compressedSize % 0x400
  }

  /**
   * The table reaches every index the decoders read: an offset below 0x400 plus a position
   * below 32.
   */
  predicate TableCovers(c: Constants)
  {
    |c.table2| >= 0x3FF + 32
  }
}
