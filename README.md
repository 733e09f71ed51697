# monono2 core in Dafny

This project models the core of monono2, a set of C# tools for the game client data of Aion. It covers these parts:

- **Navigation meshes.** The builder gathers floor edges, splits them into subgraphs, repairs direction flags and validates rims. The compiler packs grid words. The compiled mesh saves and loads, and answers neighbour and floor queries, A* search and `findPath`/`reducePath`.
- **Binary parsers.** The binary XML format (packed varints, string table, node tree), the encrypted HTML and config transforms, and the Pak archive (central directory, file entries, the Aion byte mask, the listing and file lookup).
- **Level and asset loaders.** `h32`, `brush.lst`, `objects.lst`, `WorldId.xml`, CGF, and DDS headers and DXT1/DXT3/DXT5/BC5 block decoders.
- **The geometry helpers** (bounding-box tree, GeoSpace, Util) and the directory manager's path rules.
- **Small helpers.** The geo-file writer's terrain and mesh rules, the viewer's line-ending and preview-type helpers, and the key-state watcher.

Each C# file of the core is one Dafny module:

- Code that computes values is written as functions over datatypes.
- Code that changes state step by step is written as methods:
  - the builder, the priority queue, the BB tree and the binary XML file are classes with `modifies` frames;
  - the DDS decoders write into arrays;
  - loops carry their invariants.
- A thrown exception is an `Err` value of `Outcome.Result` that names the .NET exception or the message. Reads past the end of a stream are `EndOfStream`.
- A byte is an integer from 0 to 255 (`Bytes.byte`), with a `bv8` view (`Bytes.Bits`) where the source works on bits.
- C# 32-bit wrap-around is written out (`Bytes.Wrap32`) where the model computes it; the places where an unbounded integer stands in for a wrapping one are listed under "## Left out".
- C# `/` and `%` are modelled by `CsMath.Div`/`CsMath.Rem` (truncating).
- Float words in file headers are 32-bit IEEE patterns compared through `Float32`. Coordinates elsewhere are reals.
- Stream and file access, inflate, ray casts and trigonometry are function parameters.

## Model

| member | source | states |
|---|---|---|
| Ascii.Lower | Common/Util.cs:82 | lower-casing maps A-Z to a-z and keeps every other character (ASCII only, see Left out) |
| Ascii.LowerString | Common/FileFormats/Pak/PakUtil.cs:14 | the string lower-cased character by character, same length |
| Ascii.ReplaceChar | Common/Util.cs:82 | String.Replace of one character: each occurrence of `from` becomes `to`, the rest is kept |
| Ascii.TrimStartChars | Common/DirManager.cs:73 | TrimStart(chars): the longest suffix not starting with a trimmed character, and everything removed is a trimmed character |
| Ascii.TrimEndChars | Common/FileFormats/BrushLstLoader.cs:83 | Trim('\0') at the end: the longest prefix not ending in a trimmed character, everything removed trimmed |
| Ascii.TrimStartWhiteSpace | Common/FileFormats/BrushLstLoader.cs:83 | Trim() at the front: the leading white space removed, and no more |
| Ascii.TrimEndWhiteSpace | Common/FileFormats/BrushLstLoader.cs:83 | Trim() at the end: the trailing white space removed, and no more |
| Util.GetBoundingBox | Common/Util.cs:13-41 | the zero box for no vertices; otherwise every vertex is inside the box and each bound is attained by some vertex |
| Util.MidpointBetween | Common/Util.cs:75-78 | `(a + b) * 0.5` lies between a and b on every axis, equally far from both |
| Util.CenterInside | Common/Util.cs:47-50 | the centre of a well-formed box lies inside it |
| Util.FlipMatrixDiagonal3x3 | Common/Util.cs:60-73 | the three swaps give the transpose of the upper-left 3x3 block |
| Util.FlipInvolution | Common/Util.cs:60-73 | flipping twice gives back the matrix |
| Util.FlipKeepsOthers | Common/Util.cs:60-73 | the diagonal and the fourth row and column are untouched |
| Util.FlipCells | Common/Util.cs:60-73 | cell (i, j) of the 3x3 block moves to (j, i); every cell of the fourth row or column stays |
| Util.NormalizeMeshFilename | Common/Util.cs:80-83 | same length, no backslash and no upper-case letter in the result, and '/' exactly where the name had '/' or '\\' |
| Util.NormalizeMeshFilenameIdempotent | Common/Util.cs:80-83 | normalising a normalised name changes nothing |
| Paths.ExtensionIn | AionClientViewer/Form1.cs:309 | Path.GetExtension: "" or a suffix starting at the last dot, with no dot or separator after it |
| Paths.LastDotFrom | AionClientViewer/Form1.cs:309 | the backward search for the extension's dot stops at a separator |
| Paths.DirectoryName | Common/DirManager.cs:72 | Path.GetDirectoryName: the prefix before the last separator, with no separator after it |
| Paths.Combine | Common/DirManager.cs:157 | Path.Combine: a rooted second part replaces the first, otherwise the result starts with the first and ends with the second |
| ByteHelpers.Utf16Z | Common/ByteHelpers.cs:8-17 | a read that succeeds returns the units before the first aligned pair of zero bytes, which stands in range; running off the array is IndexOutOfRange |
| ByteHelpers.Utf16ZUnique | Common/ByteHelpers.cs:8-17 | the terminated string at an offset is unique: whenever one stands there, it is what the read returns |
| ByteHelpers.ReadUTF16Z | Common/ByteHelpers.cs:8-17 | the loop over aligned pairs returns exactly the terminated string, or throws where it runs off the array |
| BinaryXmlFileHelpers.PackedFrom | Common/FileFormats/BinaryXml/BinaryXmlFileHelpers.cs:8-19 | the read fails (EndOfStream) exactly when every byte left has its top bit set; otherwise it ends after the first byte below 128 |
| BinaryXmlFileHelpers.Packed | Common/FileFormats/BinaryXml/BinaryXmlFileHelpers.cs:8-19 | ReadPackedS32 at a position: the number and the position after its last byte |
| BinaryXmlFileHelpers.PackedOneByte | Common/FileFormats/BinaryXml/BinaryXmlFileHelpers.cs:8-19 | a byte below 128 is the whole number and takes one byte |
| BinaryXmlFileHelpers.ReadPackedS32 | Common/FileFormats/BinaryXml/BinaryXmlFileHelpers.cs:8-19 | the loop (seven bits per continuation byte, the shift masked to five bits as a C# int shift is) gives Packed's number and position, or EndOfStream |
| BinaryXmlFileHelpers.PackedFromStep | Common/FileFormats/BinaryXml/BinaryXmlFileHelpers.cs:13-17 | one continuation byte adds its seven bits at the current shift and moves the shift on by 7 modulo 32 |
| BinaryXmlFileHelpers.Leb | Common/FileFormats/BinaryXml/BinaryXmlFileHelpers.cs:8-19 | the packed form of a 32-bit word: one to five bytes, fewer for smaller words |
| BinaryXmlFileHelpers.ReadsRun | Common/FileFormats/BinaryXml/BinaryXmlFileHelpers.cs:8-19 | where a well-formed run stands, the read consumes exactly its bytes and gathers their fold |
| BinaryXmlFileHelpers.PackedRoundTrip | Common/FileFormats/BinaryXml/BinaryXmlFileHelpers.cs:8-19 | reading the packed form of any 32-bit word gives back the C# int with those bits, after exactly the bytes written |
| BinaryXmlFileHelpers.Doubled | Common/FileFormats/BinaryXml/BinaryXmlFileHelpers.cs:26 | `2 * offset` wraps to 32 bits; below 2^30 it is the plain double |
| BinaryXmlFileHelpers.ReadTable | Common/FileFormats/BinaryXml/BinaryXmlFileHelpers.cs:21-27 | offset 0 is "" without reading; other offsets read the terminated string at twice the offset |
| BinaryXmlStringTable.StringTable.constructor | Common/FileFormats/BinaryXml/BinaryXmlStringTable.cs:6-8 | a new table holds no data |
| BinaryXmlStringTable.StringTable.GetData | Common/FileFormats/BinaryXml/BinaryXmlStringTable.cs:10-16 | getData returns Lookup of the table's bytes: "" for 0, NullReference before Read, else the string at twice the offset |
| BinaryXmlStringTable.StringTable.Read | Common/FileFormats/BinaryXml/BinaryXmlStringTable.cs:18-22 | succeeds iff the packed count reads and is not negative; the table becomes the bytes up to the count (fewer at the end of the stream); a failure leaves the table unchanged |
| BinaryXmlStringTable.Lookup | Common/FileFormats/BinaryXml/BinaryXmlStringTable.cs:10-16 | index 0 gives "" without touching the table; a table never read throws NullReference; otherwise the string at the doubled offset |
| BinaryXmlStringTable.Contents | Common/FileFormats/BinaryXml/BinaryXmlStringTable.cs:18-22 | what Read finds: Ok iff the packed count reads and is not negative; the table ends at min(start + count, end of stream) |
| BinaryXmlNode.MapOf | Common/FileFormats/BinaryXml/BinaryXmlNode.cs:18-38 | the dictionary built by the assignments has exactly the keys of the pairs |
| BinaryXmlNode.LastWins | Common/FileFormats/BinaryXml/BinaryXmlNode.cs:38 | a key given twice keeps the value of its last pair |
| BinaryXmlNode.StringAt | Common/FileFormats/BinaryXml/BinaryXmlNode.cs:16 | a packed offset followed by its table lookup |
| BinaryXmlNode.PairsFrom | Common/FileFormats/BinaryXml/BinaryXmlNode.cs:29-39 | the attribute loop reads max(count, 0) pairs after those already read, both offsets before either lookup |
| BinaryXmlNode.ValueAt | Common/FileFormats/BinaryXml/BinaryXmlNode.cs:22-26 | a value exactly when flag bit 0 is set; nothing is read otherwise |
| BinaryXmlNode.AttributesAt | Common/FileFormats/BinaryXml/BinaryXmlNode.cs:27-40 | without flag bit 1 the dictionary is empty and nothing is read |
| BinaryXmlNode.NodeAt | Common/FileFormats/BinaryXml/BinaryXmlNode.cs:14-57 | a node is its name, then the flags byte, then the value, attribute and child sections the flag bits select, in that order |
| BinaryXmlNode.ChildrenAt | Common/FileFormats/BinaryXml/BinaryXmlNode.cs:46-55 | without flag bit 2 there are no children and nothing is read |
| BinaryXmlNode.ChildrenFrom | Common/FileFormats/BinaryXml/BinaryXmlNode.cs:49-54 | the child loop reads max(count, 0) nodes and appends them in order |
| BinaryXmlNode.LeafNode | Common/FileFormats/BinaryXml/BinaryXmlNode.cs:14-57 | a flags byte with none of the three bits gives the name alone, no value, no attributes, no children, ending after the flags byte |
| BinaryXmlNode.Read | Common/FileFormats/BinaryXml/BinaryXmlNode.cs:14-57 | the method returns NodeAt's node and position, or its exception |
| BinaryXmlNode.ReadValue | Common/FileFormats/BinaryXml/BinaryXmlNode.cs:22-26 | the value branch agrees with ValueAt |
| BinaryXmlNode.ReadAttributes | Common/FileFormats/BinaryXml/BinaryXmlNode.cs:27-40 | the attribute loop agrees with AttributesAt |
| BinaryXmlNode.ReadChildren | Common/FileFormats/BinaryXml/BinaryXmlNode.cs:46-55 | the child loop agrees with ChildrenAt |
| BinaryXmlFile.DocumentAt | Common/FileFormats/BinaryXml/BinaryXmlFile.cs:11-19 | the end of the stream is EndOfStream, a first byte other than 128 is "not a binary XML file"; a document is the marker, the table, then the root node read against that table |
| BinaryXmlFile.File.constructor | Common/FileFormats/BinaryXml/BinaryXmlFile.cs:9 | a new file has no root |
| BinaryXmlFile.File.Read | Common/FileFormats/BinaryXml/BinaryXmlFile.cs:11-19 | Ok iff DocumentAt is, with its error; the root is kept on a marker or table failure, left unfinished when the node read fails, and is the document's node on success |
| EncryptedHtml.FileName | Common/FileFormats/EncryptedHtml/EncryptedHtml.cs:43 | Path.GetFileName: the longest suffix with no separator |
| EncryptedHtml.DropExtension | Common/FileFormats/EncryptedHtml/EncryptedHtml.cs:43 | GetFileNameWithoutExtension: the name up to its last '.', or all of it when it has none |
| EncryptedHtml.XorTwice | Common/FileFormats/EncryptedHtml/EncryptedHtml.cs:56 | exclusive or with the same key twice is the identity |
| EncryptedHtml.Apply | Common/FileFormats/EncryptedHtml/EncryptedHtml.cs:51-57 | every byte is XOR-ed with the low byte of its own key, which depends on the name and the index alone |
| EncryptedHtml.ApplyTwice | Common/FileFormats/EncryptedHtml/EncryptedHtml.cs:51-57 | applying the keystream twice restores the buffer |
| EncryptedHtml.Internal | Common/FileFormats/EncryptedHtml/EncryptedHtml.cs:28-64 | Ok iff the first byte is 0x81 and at least one byte follows; an empty or wrong header is "invalid header", a lone header IndexOutOfRange; the result is one byte shorter than the input |
| EncryptedHtml.FirstByteIsKey | Common/FileFormats/EncryptedHtml/EncryptedHtml.cs:38 | the first decoded byte is the first key byte whatever was stored there, because it is zeroed first |
| EncryptedHtml.RoundTrip | Common/FileFormats/EncryptedHtml/EncryptedHtml.cs:28-64 | a plain text whose first byte is the first key byte, encoded with the same keystream behind a 0x81 header, decodes back to itself |
| EncryptedHtml.DecodeInternal | Common/FileFormats/EncryptedHtml/EncryptedHtml.cs:28-64 | the header check, the name loop and the XOR loop give Internal's buffer or its exception |
| EncryptedHtml.NameKey | Common/FileFormats/EncryptedHtml/EncryptedHtml.cs:40-49 | the name loop's sum and XOR of `(c & 0xF) + i` with 32-bit wrap-around |
| EncryptedHtml.XorInPlace | Common/FileFormats/EncryptedHtml/EncryptedHtml.cs:51-57 | the in-place loop leaves the array equal to Apply of its old contents |
| EncryptedHtml.Decoded | Common/FileFormats/EncryptedHtml/EncryptedHtml.cs:11-15 | Decode: Ok iff DecodeInternal is, and then the buffer without its first byte |
| EncryptedHtml.Decode | Common/FileFormats/EncryptedHtml/EncryptedHtml.cs:11-15 | the method returns Decoded |
| EncryptedHtml.Utf16Le | Common/FileFormats/EncryptedHtml/EncryptedHtml.cs:25 | one little-endian unit per byte pair, and U+FFFD for an odd byte at the end |
| EncryptedHtml.DecodedText | Common/FileFormats/EncryptedHtml/EncryptedHtml.cs:17-26 | the text after a byte order mark FF FE at decoded positions 1 and 2; a wrong mark is "unexpected BOM", a short buffer IndexOutOfRange |
| EncryptedHtml.DecodeToString | Common/FileFormats/EncryptedHtml/EncryptedHtml.cs:17-26 | the method returns DecodedText |
| EncryptedConfig.ComplementValue | Common/FileFormats/Config/EncryptedConfig.cs:15-16 | XOR with 0xFF of a byte at or above 0x80 is 255 minus it |
| EncryptedConfig.ClearBelow | Common/FileFormats/Config/EncryptedConfig.cs:13-17 | each cleared byte is below 0x80: kept when it already was, else complemented |
| EncryptedConfig.Cleared | Common/FileFormats/Config/EncryptedConfig.cs:13-17 | the loop's effect on the whole buffer: each byte cleared, same length |
| EncryptedConfig.AsciiText | Common/FileFormats/Config/EncryptedConfig.cs:18 | Encoding.ASCII: a byte below 0x80 is its own character, any other is '?' |
| EncryptedConfig.ClearedIsAscii | Common/FileFormats/Config/EncryptedConfig.cs:13-17 | every cleared byte is below 0x80; bytes already below are kept and the others become 255 minus them |
| EncryptedConfig.ClearedIdempotent | Common/FileFormats/Config/EncryptedConfig.cs:13-17 | clearing a cleared buffer changes nothing |
| EncryptedConfig.TextOfCleared | Common/FileFormats/Config/EncryptedConfig.cs:18 | the decoded text has one character per byte with the cleared byte's code, never a '?' |
| EncryptedConfig.DecryptConfigFile | Common/FileFormats/Config/EncryptedConfig.cs:10-19 | the text is the ASCII decoding of the cleared buffer |
| PakUtil.Utf8Text | Common/FileFormats/Pak/PakUtil.cs:19 | UTF-8 decoding on the ASCII range: a byte below 0x80 is its own character, any other becomes U+FFFD (see Left out) |
| PakUtil.NormalizeFilename | Common/FileFormats/Pak/PakUtil.cs:12-15 | same length; each '\\' becomes '/' and every other character is lower-cased |
| PakUtil.NormalizeFilenameAlike | Common/FileFormats/Pak/PakUtil.cs:12-15 | names that differ only in letter case or in the kind of slash normalise alike |
| PakUtil.NormalizeFilenameIdempotent | Common/FileFormats/Pak/PakUtil.cs:12-15 | a normalised name is its own normal form |
| PakUtil.ReadFilename | Common/FileFormats/Pak/PakUtil.cs:17-20 | a negative length throws; otherwise the bytes up to the length (fewer at the end of the stream), decoded and normalised |
| PakCentralDirEnd.FieldsSize | Common/FileFormats/Pak/PakCentralDirEnd.cs:11 | the nine fields take HeaderSize = 22 bytes |
| PakCentralDirEnd.OfFields | Common/FileFormats/Pak/PakCentralDirEnd.cs:13-21 | a record built from fields has exactly those fields |
| PakCentralDirEnd.Check | Common/FileFormats/Pak/PakCentralDirEnd.cs:36-55 | the checks in source order (signature pair of the game or of zip, disk 0, non-empty count, matching counts): Ok iff the record is accepted |
| PakCentralDirEnd.Decode | Common/FileFormats/Pak/PakCentralDirEnd.cs:23-58 | Ok iff 22 bytes stand at p and the record they hold is accepted, and then it is that record |
| PakCentralDirEnd.Read | Common/FileFormats/Pak/PakCentralDirEnd.cs:23-58 | the method returns Decode and leaves the stream 22 bytes on |
| PakCentralDirEnd.Encode | Common/FileFormats/Pak/PakCentralDirEnd.cs:13-21 | a record's stored form is 22 bytes |
| PakCentralDirEnd.DecodeEncoded | Common/FileFormats/Pak/PakCentralDirEnd.cs:23-58 | an accepted record reads back as itself wherever its bytes stand |
| PakCentralDirEnd.EncodeDecoded | Common/FileFormats/Pak/PakCentralDirEnd.cs:23-58 | a record Read accepts is exactly the bytes it was read from |
| PakCentralDirFile.FieldsSize | Common/FileFormats/Pak/PakCentralDirFile.cs:40-57 | the eighteen fixed fields take 46 bytes |
| PakCentralDirFile.OfFields | Common/FileFormats/Pak/PakCentralDirFile.cs:11-32 | an entry built from fields keeps the format flag and name given |
| PakCentralDirFile.FieldsOfOf | Common/FileFormats/Pak/PakCentralDirFile.cs:11-32 | an entry built from fixed fields has those fields |
| PakCentralDirFile.FixedFields | Common/FileFormats/Pak/PakCentralDirFile.cs:40-57 | the fixed fields as read at p, each within its width |
| PakCentralDirFile.Check | Common/FileFormats/Pak/PakCentralDirFile.cs:61-85 | an entry that passes the checks is accepted and is built from the fields read |
| PakCentralDirFile.Decode | Common/FileFormats/Pak/PakCentralDirFile.cs:37-88 | every entry Read returns is accepted: a game or zip signature, no file comment, disk 0 |
| PakCentralDirFile.Entry | Common/FileFormats/Pak/PakCentralDirFile.cs:59-87 | the name, the signature test, the extra field and the other checks after the fixed fields |
| PakCentralDirFile.Finish | Common/FileFormats/Pak/PakCentralDirFile.cs:81-87 | the outcome of the checks after the extra field, with the position after it |
| PakCentralDirFile.DecodedNameNormal | Common/FileFormats/Pak/PakCentralDirFile.cs:59 | a decoded entry's name is in normal form |
| PakCentralDirFile.Read | Common/FileFormats/Pak/PakCentralDirFile.cs:37-88 | the method returns Decode's entry and position, or its exception |
| PakCentralDirFile.ReadRest | Common/FileFormats/Pak/PakCentralDirFile.cs:61-87 | the part of Read after the name agrees with Finish |
| PakCentralDirFile.ReadFixed | Common/FileFormats/Pak/PakCentralDirFile.cs:40-57 | Ok iff 46 bytes remain, and then the fixed fields read at p |
| PakCentralDirFile.CheckSignature | Common/FileFormats/Pak/PakCentralDirFile.cs:61-73 | the game's signature gives the game format, zip's gives zip format, anything else is "bad central dir signature" |
| PakCentralDirFile.CheckRest | Common/FileFormats/Pak/PakCentralDirFile.cs:81-85 | the comment-length and disk checks agree with Check |
| PakCentralDirFile.SkipExtraField | Common/FileFormats/Pak/PakCentralDirFile.cs:75-79 | the extra field is read and dropped; the position moves on by its length, or to the end of the stream |
| PakCentralDirFile.Encode | Common/FileFormats/Pak/PakCentralDirFile.cs:40-59 | an entry's stored form: 46 fixed bytes, the name, the extra field |
| PakCentralDirFile.OfFieldsOf | Common/FileFormats/Pak/PakCentralDirFile.cs:11-32 | rebuilding an entry from its fields, flag and name gives the entry |
| PakCentralDirFile.CheckAccepted | Common/FileFormats/Pak/PakCentralDirFile.cs:61-85 | the checks pass an accepted entry's own fields |
| PakCentralDirFile.FixedOfEncoded | Common/FileFormats/Pak/PakCentralDirFile.cs:40-57 | where an entry stands, its fixed fields read back |
| PakCentralDirFile.NameOfEncoded | Common/FileFormats/Pak/PakCentralDirFile.cs:59 | where an entry stands, its name's bytes follow the fixed fields |
| PakCentralDirFile.DecodeEncoded | Common/FileFormats/Pak/PakCentralDirFile.cs:37-88 | an accepted entry reads back as itself, and Read stops right after its extra field |
| PakFileEntry.FieldsSize | Common/FileFormats/Pak/PakFileEntry.cs:31-42 | the twelve fixed fields take 30 bytes |
| PakFileEntry.OfFields | Common/FileFormats/Pak/PakFileEntry.cs:12-25 | a header built from fields keeps the name given |
| PakFileEntry.FixedFields | Common/FileFormats/Pak/PakFileEntry.cs:31-42 | the fixed fields as read at p, each within its width |
| PakFileEntry.Check | Common/FileFormats/Pak/PakFileEntry.cs:46-57 | Ok iff the header is accepted (game or zip signature, no extra field), and then it is the header built from the fields |
| PakFileEntry.Decode | Common/FileFormats/Pak/PakFileEntry.cs:28-60 | every header Read returns is accepted, and the position is after the name, at the file's bytes |
| PakFileEntry.Entry | Common/FileFormats/Pak/PakFileEntry.cs:44-59 | the name and the checks after the fixed fields |
| PakFileEntry.Finish | Common/FileFormats/Pak/PakFileEntry.cs:46-59 | the outcome of the checks with the position after the name |
| PakFileEntry.Read | Common/FileFormats/Pak/PakFileEntry.cs:28-60 | the method returns Decode's header and position, or its exception |
| PakFileEntry.ReadFixed | Common/FileFormats/Pak/PakFileEntry.cs:31-42 | Ok iff 30 bytes remain, and then the fixed fields read at p |
| PakFileEntry.CheckEntry | Common/FileFormats/Pak/PakFileEntry.cs:46-57 | the method agrees with Check |
| PakFileEntry.Encode | Common/FileFormats/Pak/PakFileEntry.cs:31-44 | a header's stored form: 30 fixed bytes, then the name |
| PakFileEntry.OfFieldsOf | Common/FileFormats/Pak/PakFileEntry.cs:12-25 | rebuilding a header from its fields and name gives the header |
| PakFileEntry.PartsOfEncoded | Common/FileFormats/Pak/PakFileEntry.cs:31-44 | where a header stands, its fixed fields and its name read back |
| PakFileEntry.DecodeEncoded | Common/FileFormats/Pak/PakFileEntry.cs:28-60 | an accepted header reads back as itself, and Read stops right after its name |
| PakConstants.TableOffset | Common/FileFormats/Pak/PakReader.cs:169 | the mask offset is below 0x400 and agrees with the compressed size modulo 0x400 |
| PakReader.Unmasked | Common/FileFormats/Pak/PakReader.cs:167-172 | same length; the bytes after the first 32 are kept |
| PakReader.UnmaskedAt | Common/FileFormats/Pak/PakReader.cs:171 | byte i < 32 becomes itself xor-ed with table2 at the size's offset plus i |
| PakReader.UnmaskedTwice | Common/FileFormats/Pak/PakReader.cs:167-172 | unmasking is its own inverse |
| PakReader.UnmaskedPrefix | Common/FileFormats/Pak/PakReader.cs:122-149 | unmasking commutes with taking a prefix, so the streamed and the whole-array unmasking agree |
| PakReader.DecodeAionBytes | Common/FileFormats/Pak/PakReader.cs:167-172 | the array afterwards is the unmasked old array |
| PakReader.ReadCount | Common/FileFormats/Pak/PakReader.cs:122-149 | a read returns no more than asked for and than is left, and while masked it stops short only at offset 32 |
| PakReader.EncryptedAionPakReader.Plain | Common/FileFormats/Pak/PakReader.cs:92-165 | the stream yields exactly the archive bytes after the start position |
| PakReader.EncryptedAionPakReader.constructor | Common/FileFormats/Pak/PakReader.cs:99-107 | the stream starts at position 0 over the archive's current position |
| PakReader.EncryptedAionPakReader.Read | Common/FileFormats/Pak/PakReader.cs:122-149 | the next ReadCount bytes of the unmasked stream land at buffer[offset..]; the position moves on by that many; bytes before offset untouched |
| PakReader.EncryptedAionPakReader.ReadMasked | Common/FileFormats/Pak/PakReader.cs:125-144 | the byte-by-byte loop yields the unmasked bytes up to offset 32, count or the end |
| PakReader.EncryptedAionPakReader.ReadByte | Common/FileFormats/Pak/PakReader.cs:130-132 | the archive's next byte and one position on, or -1 at the end with the position kept |
| PakReader.EncryptedAionPakReader.ReadUnderlying | Common/FileFormats/Pak/PakReader.cs:146-148 | as many archive bytes as asked for and still there, copied; the rest of the buffer untouched |
| PakReader.OpenEncrypted | Common/FileFormats/Pak/PakReader.cs:99-107 | opens exactly for entries of the game's variant; otherwise "zip stream is not encrypted" |
| PakReader.DataStream | Common/FileFormats/Pak/PakReader.cs:188-203 | the entry's data stream has the data's length |
| PakReader.Take | Common/FileFormats/Pak/PakReader.cs:190 | ReadBytes: negative counts throw; otherwise the first count bytes, fewer at the end |
| PakReader.FileBytes | Common/FileFormats/Pak/PakReader.cs:174-209 | a file is only returned for methods 0 and 8, and never longer than the size the entry records |
| PakReader.StoredRead | Common/FileFormats/Pak/PakReader.cs:188-195 | a stored file is the compressedSize bytes after the matching local header, unmasked for the game's variant |
| PakReader.StoredRoundTrip | Common/FileFormats/Pak/PakReader.cs:174-209 | where a matching local header and the masked file stand at the entry's offset, ReadFileBytes gives the file back |
| PakReader.DeflatedRead | Common/FileFormats/Pak/PakReader.cs:196-204 | a deflated file is the first uncompressedSize bytes inflate makes of the (unmasked) data after the header |
| PakReader.CentralDirEnd | Common/FileFormats/Pak/PakReader.cs:226-230 | the end record read from the archive's last 22 bytes is accepted; a shorter archive fails to seek |
| PakReader.ReadCentralDirEnd | Common/FileFormats/Pak/PakReader.cs:226-230 | the method agrees with CentralDirEnd |
| PakReader.CentralDir | Common/FileFormats/Pak/PakReader.cs:211-224 | n entries, each accepted, or the first failure |
| PakReader.CentralDirNext | Common/FileFormats/Pak/PakReader.cs:217-221 | the same for n > 0 |
| PakReader.CentralDirStep | Common/FileFormats/Pak/PakReader.cs:217-221 | the directory is the first entry before the rest, or that entry's failure |
| PakReader.ReadDirEntry | Common/FileFormats/Pak/PakReader.cs:219-220 | one entry read; the directory from p is it before the directory from where it stops |
| PakReader.ReadDirEntries | Common/FileFormats/Pak/PakReader.cs:217-221 | the loop returns CentralDir |
| PakReader.CentralDirNamesNormal | Common/FileFormats/Pak/PakReader.cs:211-224 | every entry of a directory carries its name in normal form |
| PakReader.ListingFrom | Common/FileFormats/Pak/PakReader.cs:26-29 | Dictionary.Add fails only with a duplicate key |
| PakReader.NamesCons | Common/FileFormats/Pak/PakReader.cs:26-29 | the names of entries are the first one's and the others' |
| PakReader.DistinctCons | Common/FileFormats/Pak/PakReader.cs:26-29 | names are distinct iff the others' are and the first is not among them |
| PakReader.ListingFromOk | Common/FileFormats/Pak/PakReader.cs:22-32 | adding succeeds iff the names are distinct and none is already a key |
| PakReader.ListingFromContents | Common/FileFormats/Pak/PakReader.cs:22-32 | after adding, the dictionary holds the old entries and each new one under its name, nothing else |
| PakReader.ListingSpec | Common/FileFormats/Pak/PakReader.cs:22-32 | the listing fails with DuplicateKey iff two entries share a name, and otherwise maps each name to its entry and nothing else |
| PakReader.FileOf | Common/FileFormats/Pak/PakReader.cs:36 | Files[NormalizeFilename(name)]: the entry when listed, KeyNotFound when not |
| PakReader.PakReaderSlim.constructor | Common/FileFormats/Pak/PakReader.cs:66-72 | an open reader over the archive with its end record |
| PakReader.PakReaderSlim.Close | Common/FileFormats/Pak/PakReader.cs:76-89 | the reader is closed |
| PakReader.PakReaderSlim.ReadCentralDir | Common/FileFormats/Pak/PakReader.cs:211-224 | thisDiskCentralDirCount entries from centralDirOffset; a closed reader fails |
| PakReader.PakReaderSlim.ReadFileBytes | Common/FileFormats/Pak/PakReader.cs:174-209 | the method agrees with FileBytes; a closed reader fails |
| PakReader.OpenSlim | Common/FileFormats/Pak/PakReader.cs:66-72 | opens iff the end record reads, with that record's failure otherwise |
| PakReader.OpenedFileFound | Common/FileFormats/Pak/PakReader.cs:34-37 | each listed entry sits under its own normal name, so GetFile finds it by any spelling that normalises to it |
| PakReader.PakReader.constructor | Common/FileFormats/Pak/PakReader.cs:14-18 | a reader with no listing yet |
| PakReader.PakReader.LoadFileListing | Common/FileFormats/Pak/PakReader.cs:22-32 | Files becomes the listing of the central directory, or stays as it was on failure |
| PakReader.PakReader.GetFile | Common/FileFormats/Pak/PakReader.cs:34-37 | the bytes of the entry under the normalised name, or KeyNotFound |
| PakReader.PakReader.Close | Common/FileFormats/Pak/PakReader.cs:39-51 | Files cleared and the slim reader closed |
| PakReader.Open | Common/FileFormats/Pak/PakReader.cs:14-18 | opens iff the end record and the listing both succeed, with the listing kept |
| PriorityQueue.LeastExists | Common/PriorityQueue.cs:23 | a non-empty set of priorities has a least one, so First() is defined |
| PriorityQueue.LeastIsUnique | Common/PriorityQueue.cs:23 | the least priority is unique |
| PriorityQueue.FirstKey | Common/PriorityQueue.cs:23 | the first key of the sorted dictionary is the least |
| PriorityQueue.CountRemove | Common/PriorityQueue.cs:26 | the element count splits at any bucket |
| PriorityQueue.CountPositive | Common/PriorityQueue.cs:30-33 | with no empty bucket, a non-empty dictionary holds elements |
| PriorityQueue.PushCountsOne | Common/PriorityQueue.cs:11-19 | a push adds one element |
| PriorityQueue.PopCountsOne | Common/PriorityQueue.cs:21-28 | a pop removes one element |
| PriorityQueue.PriorityQueue.constructor | Common/PriorityQueue.cs:9 | the queue starts empty |
| PriorityQueue.PriorityQueue.Push | Common/PriorityQueue.cs:11-19 | the value joins the back of its priority's bucket (a new one if absent); no bucket is ever empty; one more element |
| PriorityQueue.PriorityQueue.Pop | Common/PriorityQueue.cs:21-28 | fails iff empty; otherwise the head of the least-priority bucket, removed, the bucket dropped when emptied |
| PriorityQueue.PriorityQueue.Empty | Common/PriorityQueue.cs:30-33 | empty iff the queue holds no element |
| PriorityQueue.SamePriorityIsFifo | Common/PriorityQueue.cs:11-19 | elements of one priority queue up behind the earlier ones in arrival order; other buckets untouched |
| PriorityQueue.PopTakesHead | Common/PriorityQueue.cs:21-28 | a pop takes the bucket's head and leaves the rest in order; other buckets untouched |
| GameInput.Observe | AionMonoLib/GameInput.cs:17-27 | true iff the key is held and was not marked down; the mark then follows the key |
| GameInput.Results | AionMonoLib/GameInput.cs:17-27 | one result per call |
| GameInput.ResultAfterFirst | AionMonoLib/GameInput.cs:17-27 | a later call reports a press iff the key is held now and was up at the call before |
| GameInput.ResultFirst | AionMonoLib/GameInput.cs:17-27 | the first call reports a press iff the key is held and was not marked down |
| GameInput.HeldReportsNothing | AionMonoLib/GameInput.cs:17-27 | while the key stays held, no further press is reported |
| GameInput.ReleaseBetweenPresses | AionMonoLib/GameInput.cs:17-27 | between two reported presses some call saw the key up |
| GameInput.KeyStateWatcher.constructor | AionMonoLib/GameInput.cs:12-15 | a watcher for the key, not marked down |
| GameInput.KeyStateWatcher.IsDown | AionMonoLib/GameInput.cs:17-27 | the result and the new mark are Observe of the old mark and the keyboard |
| BBTree.Boxes | Common/BBTree.cs:78-80 | the children's boxes, in order |
| BBTree.Hull | Common/BBTree.cs:75-81 | the merged box holds every child's box |
| BBTree.HullLeast | Common/BBTree.cs:75-81 | and it is the least such box |
| BBTree.HullSnoc | Common/BBTree.cs:79-80 | one more merge folds the next box into the hull so far |
| BBTree.LongestAxis | Common/BBTree.cs:43-51 | X when its extent is at least the others, else Y when at least Z's, else Z |
| BBTree.InsertByKey | Common/BBTree.cs:47-51 | one element more |
| BBTree.InsertByKeyPermutes | Common/BBTree.cs:47-51 | inserting adds exactly that element |
| BBTree.InsertByKeySorted | Common/BBTree.cs:47-51 | inserting into a sorted list keeps it sorted |
| BBTree.SortBy | Common/BBTree.cs:47-51 | OrderBy keeps the count |
| BBTree.SortByOrders | Common/BBTree.cs:41-51 | the ordered children are a permutation of the children, by non-decreasing centre |
| BBTree.Split | Common/BBTree.cs:33-73 | a node keeps its box and kind; under four children it is unchanged; otherwise it gets exactly two non-empty groups |
| BBTree.LeavesAppend | Common/BBTree.cs:114-116 | the leaves of two lists are those of each in turn |
| BBTree.RemoveOne | Common/BBTree.cs:57-63 | taking one element out of two permutations leaves permutations |
| BBTree.LeavesPermuted | Common/BBTree.cs:57-63 | the leaves below depend only on which children there are |
| BBTree.LeavesSort | Common/BBTree.cs:41-51 | sorting keeps the leaves below |
| BBTree.GroupNested | Common/BBTree.cs:53-66 | a new group holds its children within its box, and its box lies within the node's |
| BBTree.LeavesOne | Common/BBTree.cs:90-101 | the leaves of a single node: itself, or those below it |
| BBTree.NestedPermuted | Common/BBTree.cs:57-63 | nesting depends only on which nodes there are |
| BBTree.SplitUnfold | Common/BBTree.cs:53-72 | the children after the split are the two split groups, each smaller than the node |
| BBTree.HalvesLeaves | Common/BBTree.cs:55-63 | the left and right groups hold the children's leaves between them |
| BBTree.HalvesJoin | Common/BBTree.cs:55-63 | the first mid sorted children go left, the rest right |
| BBTree.SplitLeaves | Common/BBTree.cs:33-73 | Split keeps the multiset of leaves below the node |
| BBTree.SplitNested | Common/BBTree.cs:33-73 | a nested node stays nested after Split |
| BBTree.HalvesNested | Common/BBTree.cs:55-66 | both groups are non-empty and nested in the node's box |
| BBTree.NestedSlice | Common/BBTree.cs:55-63 | a slice of a nested list is nested |
| BBTree.NestedPair | Common/BBTree.cs:67-69 | the two groups form a nested list |
| BBTree.SplitSound | Common/BBTree.cs:33-73 | Split keeps the node's leaves and its nesting |
| BBTree.NestedHasLeaves | Common/BBTree.cs:33-73 | a nested non-empty list has leaves |
| BBTree.ContainedCons | Common/BBTree.cs:119-134 | the check over a list is the first child's check, then the rest's |
| BBTree.CheckedOk | Common/BBTree.cs:119-134 | Validate passes iff every box is well-formed and contained in its parent's |
| BBTree.LeavesWithin | Common/BBTree.cs:119-134 | every leaf of a nested tree lies inside the outer box |
| BBTree.NestedChecked | Common/BBTree.cs:119-134 | Validate does not throw on a nested tree with well-formed leaf boxes |
| BBTree.NestedContained | Common/BBTree.cs:119-134 | such a tree meets Validate's containment test |
| BBTree.MeetingAppend | Common/BBTree.cs:84-106 | the values met in two lists are those of each in turn |
| BBTree.MeetingMembers | Common/BBTree.cs:84-106 | a value is met iff a leaf holding it has a box meeting the test box |
| BBTree.MissedSubtree | Common/BBTree.cs:88 | below a box missing the test box no leaf of a nested tree meets it, so pruning loses nothing |
| BBTree.ReachedMeeting | Common/BBTree.cs:84-106 | a query that always continues reaches exactly the leaves meeting the test box, each once, depth first |
| BBTree.Walk | Common/BBTree.cs:84-106 | the values visited are a prefix of those reached; a walk returning true visited all of them with every visit continuing; otherwise it ended at the first visit that stopped or threw |
| BBTree.JoinWalks | Common/BBTree.cs:86-105 | a finished walk followed by another combines as one walk |
| BBTree.Continues | Common/BBTree.cs:100 | a visitor that always continues continues on each value |
| BBTree.AllContinue | Common/BBTree.cs:84-106 | when the visitor always continues, the walk returns true after visiting every met value |
| BBTree.UpdateBBox | Common/BBTree.cs:75-81 | the box kept for no children, the hull of the children's boxes otherwise |
| BBTree.SplitNode | Common/BBTree.cs:33-73 | the method agrees with Split |
| BBTree.WalkNodes | Common/BBTree.cs:84-106 | the loop with early return agrees with Walk |
| BBTree.WalkStep | Common/BBTree.cs:86-104 | the walk from child i is that child's part, then, if it went on, the rest |
| BBTree.ValidateNodes | Common/BBTree.cs:119-134 | the loop agrees with the recursive check |
| BBTree.InsertSound | Common/BBTree.cs:137-144 | Insert keeps the root's invariant: box the span of the inserted boxes, children nested, leaves the inserted ones |
| BBTree.InsertLeaves | Common/BBTree.cs:143 | the inserted leaf joins the leaves below the root |
| BBTree.InsertSpan | Common/BBTree.cs:139-142 | the new root box is the span of all inserted boxes |
| BBTree.InsertNested | Common/BBTree.cs:143 | the children stay nested in the new root box |
| BBTree.SplitRootSound | Common/BBTree.cs:161-164 | splitting the root keeps the invariant |
| BBTree.Tree.constructor | Common/BBTree.cs:12 | an empty root |
| BBTree.Tree.Insert | Common/BBTree.cs:137-144 | the leaf is appended under the root; the box is the leaf's if there were no children, else the merge; the invariant holds |
| BBTree.Tree.BuildTree | Common/BBTree.cs:161-164 | the root is split; its box and inserted leaves stay |
| BBTree.Tree.GetBoundingBox | Common/BBTree.cs:166-169 | the root box is the span of every inserted box |
| BBTree.Tree.Validate | Common/BBTree.cs:156-159 | passes iff every box is well-formed and contained; always passes when the inserted boxes are well-formed |
| BBTree.Tree.DoActionOnIntersectingMeshes | Common/BBTree.cs:146-149 | the walk from the root |
| BBTree.ValidatePasses | Common/BBTree.cs:156-159 | in a sound tree of well-formed boxes Validate does not throw |
| GeoSpace.MeshLeaf | Common/Navigation/GeoSpace.cs:31 | a mesh is inserted under a well-formed box of its points |
| GeoSpace.MeshLeaves | Common/Navigation/GeoSpace.cs:31 | one leaf per mesh |
| GeoSpace.MeshLeavesAppend | Common/Navigation/GeoSpace.cs:25-32 | leaves of two lists of meshes in turn |
| GeoSpace.MeshLeavesSnoc | Common/Navigation/GeoSpace.cs:31 | one more mesh adds its leaf |
| GeoSpace.Triples | Common/Navigation/GeoSpace.cs:25-32 | every mesh inserted by the loop is a triangle |
| GeoSpace.Added | Common/Navigation/GeoSpace.cs:14-43 | every mesh inserted has points |
| GeoSpace.AddedNothing | Common/Navigation/GeoSpace.cs:18 | a count of 0 inserts nothing |
| GeoSpace.AddedOneMesh | Common/Navigation/GeoSpace.cs:35-41 | a range of at most 8000 vertices inside the list becomes one mesh of those vertices, in order |
| GeoSpace.Triangles | Common/Navigation/GeoSpace.cs:25-32 | triangle k of a list is its vertices 3k..3k+2 |
| GeoSpace.TriplesSpan | Common/Navigation/GeoSpace.cs:25-32 | a whole triangle list inside the list is inserted triangle by triangle |
| GeoSpace.ShiftedTriangle | Common/Navigation/GeoSpace.cs:25-32 | triangle k of a range is triangle k-1 three vertices on |
| GeoSpace.AddedTriangles | Common/Navigation/GeoSpace.cs:22-33 | a range over 8000 vertices that is a whole triangle list inserts one mesh per triangle, in order |
| GeoSpace.TriplesOverrun | Common/Navigation/GeoSpace.cs:25-32 | a long range not a multiple of three reads its last triangle past the range's end |
| GeoSpace.TriplesStep | Common/Navigation/GeoSpace.cs:27-31 | one loop step moves the triangle at i to the meshes inserted |
| GeoSpace.AddedList | Common/Navigation/GeoSpace.cs:45-51 | one mesh holding the whole list iff it is non-empty |
| GeoSpace.ScanFrom | Common/Navigation/GeoSpace.cs:59-67 | the visitor from triangle t: hit, go on, or throw on a partial triangle |
| GeoSpace.MeshVisitMeaning | Common/Navigation/GeoSpace.cs:57-69 | the visitor stops exactly on a mesh with a hit triangle, goes on past whole-triangle meshes with none, and throws otherwise |
| GeoSpace.ScanMesh | Common/Navigation/GeoSpace.cs:59-68 | the loop agrees with the visitor |
| GeoSpace.ContinuedNoHit | Common/Navigation/GeoSpace.cs:59-68 | meshes passed over have no hit triangle |
| GeoSpace.CollisionReached | Common/Navigation/GeoSpace.cs:53-71 | when HasCollision returns, it says whether a reached mesh has a hit triangle |
| GeoSpace.NoCollision | Common/Navigation/GeoSpace.cs:53-71 | false means no reached mesh has a hit |
| GeoSpace.CollisionFirstHit | Common/Navigation/GeoSpace.cs:53-71 | true means the walk ended at the first reached mesh with a hit |
| GeoSpace.WalkStopped | Common/Navigation/GeoSpace.cs:65 | a walk that returned false stopped at its last value |
| GeoSpace.StoppedMeans | Common/Navigation/GeoSpace.cs:62-66 | that last mesh has a hit and none before it does |
| GeoSpace.CollisionOfEntries | Common/Navigation/GeoSpace.cs:53-71 | in a sound tree, HasCollision says whether an inserted mesh whose box meets the ray's box has a hit |
| GeoSpace.MetHitIsEntry | Common/Navigation/GeoSpace.cs:53-71 | a met mesh with a hit is an inserted one meeting the box |
| GeoSpace.EntryHitIsMet | Common/Navigation/GeoSpace.cs:53-71 | an inserted mesh meeting the box with a hit is met |
| GeoSpace.CopyRange | Common/Navigation/GeoSpace.cs:37-39 | the copy succeeds iff the range is inside the list, and is then that range; otherwise ArgumentOutOfRange |
| GeoSpace.GeoSpace.constructor | Common/Navigation/GeoSpace.cs:11 | an empty tree |
| GeoSpace.GeoSpace.InsertMesh | Common/Navigation/GeoSpace.cs:31 | one mesh inserted under its bounds |
| GeoSpace.GeoSpace.AddCollidableMeshToTree | Common/Navigation/GeoSpace.cs:14-43 | the meshes of Added are inserted in order, with its exception |
| GeoSpace.GeoSpace.AddTriangles | Common/Navigation/GeoSpace.cs:25-33 | the loop inserts Triples' meshes, with its exception |
| GeoSpace.GeoSpace.AddCollidableTriangles | Common/Navigation/GeoSpace.cs:45-51 | the list inserted as one mesh if non-empty |
| GeoSpace.GeoSpace.HasCollision | Common/Navigation/GeoSpace.cs:53-71 | the collision result, which when it returns says whether an inserted mesh reached by the ray's box has a hit |
| GeoSpace.GeoSpace.DoActionOnIntersectingMeshes | Common/Navigation/GeoSpace.cs:73-76 | the tree's walk |
| GeoSpace.GeoSpace.BuildTree | Common/Navigation/GeoSpace.cs:78-81 | the root is split; meshes and box kept |
| GeoSpace.GeoSpace.Validate | Common/Navigation/GeoSpace.cs:83-88 | never throws, since every mesh sits under its own well-formed bounds |
| GeoSpace.GeoSpace.GetBoundingBox | Common/Navigation/GeoSpace.cs:90-93 | the span of every inserted mesh's bounds |
| Geometry.MinVec | Common/Util.cs:25-30 | each coordinate the lesser of the two, attained |
| Geometry.MaxVec | Common/Util.cs:32-37 | each coordinate the greater of the two, attained |
| Geometry.Merge | Common/BBTree.cs:80 | CreateMerged holds both boxes |
| Geometry.MergeLeast | Common/BBTree.cs:142 | and is the least box holding both |
| Geometry.MergeWellFormed | Common/BBTree.cs:142 | merging with a well-formed box gives a well-formed box |
| Geometry.IntersectsOutward | Common/BBTree.cs:88 | a box around one that meets the test box meets it too |
| Geometry.ContainsBox | Common/BBTree.cs:128 | Contains iff the boxes meet and the inner lies within; Disjoint iff they do not meet |
| Geometry.ContainsWellFormed | Common/BBTree.cs:128 | for a well-formed inner box Contains is exactly containment |
| Geometry.PointBox | Common/Navigation/GeoSpace.cs:31 | a well-formed box holding the point |
| Geometry.Include | Common/Navigation/GeoSpace.cs:31 | the grown box holds the point and the old box |
| Geometry.Bounds | Common/Navigation/GeoSpace.cs:31 | CreateFromPoints gives a well-formed box holding every point |
| Geometry.BoundsAttained | Common/Navigation/GeoSpace.cs:31 | every face of the bounds touches a point |
| Geometry.BoundsUnique | Common/Navigation/GeoSpace.cs:31 | the bounds are the only box holding every point and touching them on every face |
| NavMeshUtil.RingIsDirections | Common/Navigation/NavMeshUtil.cs:8-15 | the eight flags are exactly the single bits of a byte |
| NavMeshUtil.OffsetFromDirectionFlag | Common/Navigation/NavMeshUtil.cs:17-40 | Ok iff the flag is one of the eight directions, and then a unit step (never 0,0); "invalid flag" otherwise |
| NavMeshUtil.InverseIsInvolution | Common/Navigation/NavMeshUtil.cs:42-45 | inverting twice gives the flags back, for every byte |
| NavMeshUtil.InversePairs | Common/Navigation/NavMeshUtil.cs:42-45 | top/bottom, top-right/bottom-left, right/left, bottom-right/top-left are inverse pairs |
| NavMeshUtil.InverseNegatesOffset | Common/Navigation/NavMeshUtil.cs:17-45 | the inverse direction's offset is the negated offset |
| NavMeshUtil.InverseFlagsBits | Common/Navigation/NavMeshUtil.cs:42-45 | inverted flags block exactly the opposites of the directions blocked |
| NavMeshUtil.AdjacentMaskIsRingNeighbours | Common/Navigation/NavMeshUtil.cs:47-50 | a direction's mask is its two neighbours on the compass, wrapping between top and top-left |
| NavMeshUtil.AdjacentIsOneStepApart | Common/Navigation/NavMeshUtil.cs:52-55 | two directions are adjacent iff their offsets are 45 degrees apart |
| NavMeshUtil.AdjacentIsSymmetric | Common/Navigation/NavMeshUtil.cs:52-55 | adjacency is symmetric |
| NavMeshUtil.DetermineDirection | Common/Navigation/NavMeshUtil.cs:58-90 | Ok iff the cells are one step apart (not equal), with the direction whose offset is that step; throws otherwise |
| NavMeshUtil.DetermineDirectionTranslates | Common/Navigation/NavMeshUtil.cs:60-61 | only the difference of the coordinates matters |
| NavMeshUtil.DetermineDirectionOfOffset | Common/Navigation/NavMeshUtil.cs:17-90 | DetermineDirection inverts OffsetFromDirectionFlag |
| NavMeshUtil.OffsetOfDetermineDirection | Common/Navigation/NavMeshUtil.cs:17-90 | and OffsetFromDirectionFlag inverts DetermineDirection |
| NavMeshUtil.EncodeHeight | Common/Navigation/NavMeshUtil.cs:124-127 | the scaled height truncated toward zero, within 0..65535 |
| NavMeshUtil.ScaleBounded | Common/Navigation/NavMeshUtil.cs:126 | the scaled height stays within 0..65535 |
| NavMeshUtil.EncodeHeightEnds | Common/Navigation/NavMeshUtil.cs:124-127 | minz encodes as 0 and maxz as 65535 |
| NavMeshUtil.DecodeHeightEnds | Common/Navigation/NavMeshUtil.cs:129-132 | corrected (wide product): 0 decodes as minz and 65535 as maxz |
| NavMeshUtil.WrapInRange | Common/Navigation/NavMeshUtil.cs:131 | an int value in range is kept by the 32-bit wrap |
| NavMeshUtil.DecodeHeightAgrees | Common/Navigation/NavMeshUtil.cs:129-132 | while the z range spans at most 32768, decoding as written (32-bit product) equals the wide decoding |
| NavMeshUtil.DecodeHeightWraps | Common/Navigation/NavMeshUtil.cs:131 | as written, over the z range [0, 40000] code 65535 decodes below zero, where the wide decoding gives 40000 |
| NavMeshUtil.EncodeHeightMonotone | Common/Navigation/NavMeshUtil.cs:124-127 | encoding keeps the order of heights |
| NavMeshUtil.DivideMonotone | Common/Navigation/NavMeshUtil.cs:126 | division by a positive number keeps order |
| NavMeshUtil.DecodeHeightMonotone | Common/Navigation/NavMeshUtil.cs:129-132 | corrected (wide product): decoding keeps the order of codes |
| NavMeshUtil.QuantisationError | Common/Navigation/NavMeshUtil.cs:124-132 | corrected (wide product): decoding an encoded height lands at most one step (range/65535) below it |
| NavMeshUtil.FloorStep | Common/Navigation/NavMeshUtil.cs:124-132 | scaling the truncation bounds back by range/65535 |
| NavMeshUtil.MultiplyLess | Common/Navigation/NavMeshUtil.cs:131 | multiplying by a positive number keeps strict order |
| NavMeshFloors.ToU16 | Common/Navigation/NavMeshBuilder.cs:484 | the (ushort) cast keeps a block coordinate below 65536 |
| NavMeshFloors.FirstLink | Common/Navigation/NavMeshBuilder.cs:473-495 | the neighbour floor a floor links to is one it links to, and there is none iff it links to no floor of the list |
| NavMeshFloors.FirstLinkAt | Common/Navigation/NavMeshBuilder.cs:473-495 | the scan stops at the first floor linked to (the break at 494) |
| NavMeshFloors.AddEdge | Common/Navigation/NavMeshBuilder.cs:482-492 | the edge list of the vertex gains the neighbour at its end, created on first use; other lists untouched |
| NavMeshFloors.OffsetIndex | Common/Navigation/NavMeshBuilder.cs:440-447 | every step to a neighbouring block is one of the eight calls |
| NavMeshFloors.AddEdgeGrows | Common/Navigation/NavMeshBuilder.cs:482-492 | adding an edge only extends lists and adds keys |
| NavMeshFloors.DirectionBack | Common/Navigation/NavMeshBuilder.cs:462-463 | the direction back from a neighbour is the inverse of the direction to it |
| NavMeshFloors.LinkFloorGrows | Common/Navigation/NavMeshBuilder.cs:466-496 | linking a floor only extends the edges |
| NavMeshFloors.CollectFloorsGrows | Common/Navigation/NavMeshBuilder.cs:466-496 | the loop over the centre floors only extends the edges |
| NavMeshFloors.CollectEdgesGrows | Common/Navigation/NavMeshBuilder.cs:453-497 | CollectEdgesBetweenFloorLists only extends the edges |
| NavMeshFloors.CollectAroundGrows | Common/Navigation/NavMeshBuilder.cs:440-447 | later directions only extend what earlier ones gathered |
| NavMeshFloors.CellEdgesGrows | Common/Navigation/NavMeshBuilder.cs:436-447 | a block's work only extends the edges |
| NavMeshFloors.CellsGrow | Common/Navigation/NavMeshBuilder.cs:434-448 | later blocks of a row only extend what earlier ones gathered |
| NavMeshFloors.RowsGrow | Common/Navigation/NavMeshBuilder.cs:432-449 | later rows only extend what earlier ones gathered |
| NavMeshFloors.CollectFloorsComplete | Common/Navigation/NavMeshBuilder.cs:466-496 | an open floor that links to a neighbour floor gets the edge to the first one |
| NavMeshFloors.CollectAroundComplete | Common/Navigation/NavMeshBuilder.cs:440-447 | the same for any of the eight directions of a block |
| NavMeshFloors.GatheredComplete | Common/Navigation/NavMeshBuilder.cs:429-451 | GatherEdgeVertices is complete: every open floor with a linkable floor next door has the edge to the first such floor |
| NavMeshFloors.AddEdgeWellFormed | Common/Navigation/NavMeshBuilder.cs:482-492 | adding a linked edge keeps every edge between linked floors |
| NavMeshFloors.LinkFloorWellFormed | Common/Navigation/NavMeshBuilder.cs:466-496 | linking one floor keeps that |
| NavMeshFloors.CollectFloorsWellFormed | Common/Navigation/NavMeshBuilder.cs:466-496 | the floor loop keeps that |
| NavMeshFloors.CollectAroundWellFormed | Common/Navigation/NavMeshBuilder.cs:440-447 | the eight directions keep that |
| NavMeshFloors.RowsWellFormed | Common/Navigation/NavMeshBuilder.cs:432-449 | the row loop keeps that |
| NavMeshFloors.CellsWellFormed | Common/Navigation/NavMeshBuilder.cs:434-448 | the block loop keeps that |
| NavMeshFloors.GatheredWellFormed | Common/Navigation/NavMeshBuilder.cs:429-451 | GatherEdgeVertices is sound: each edge joins two floors that link both ways within the height step, and no list is empty |
| NavMeshFloors.GatheredClosed | Common/Navigation/NavMeshBuilder.cs:401-423 | every vertex an edge reaches has edges of its own, so the search's edges[cur] never misses |
| NavMeshFloors.LinksBack | Common/Navigation/NavMeshBuilder.cs:469-479 | the floor linked to is open back and links back to some centre floor |
| NavMeshFloors.LinkedBack | Common/Navigation/NavMeshBuilder.cs:429-451 | a linked neighbour is itself a key of the edges |
| NavMeshFlagFix.FirstAt | Common/Navigation/NavMeshBuilder.cs:313-323 | the index of the first floor at height z, or the length when there is none |
| NavMeshFlagFix.ClearBits | Common/Navigation/NavMeshBuilder.cs:319 | (byte)(flags & ~dir) clears exactly dir's bits |
| NavMeshFlagFix.Unblock | Common/Navigation/NavMeshBuilder.cs:310-342 | one unblock keeps the shape of the floor data and changes nothing when the floor is missing |
| NavMeshFlagFix.ApplyAll | Common/Navigation/NavMeshBuilder.cs:297-346 | the requests in order keep the shape of the floor data |
| NavMeshFlagFix.ApplyAllSnoc | Common/Navigation/NavMeshBuilder.cs:297-346 | one more request is carried out after the others |
| NavMeshFlagFix.Blank | Common/Navigation/NavMeshBuilder.cs:291-294 | every floor of every present block gets 0xFF, heights kept |
| NavMeshFlagFix.FirstAtShape | Common/Navigation/NavMeshBuilder.cs:313-323 | the search looks only at heights |
| NavMeshFlagFix.ShapeHits | Common/Navigation/NavMeshBuilder.cs:310-342 | which floor a request hits depends only on heights |
| NavMeshFlagFix.ApplyAllBit | Common/Navigation/NavMeshBuilder.cs:297-346 | a direction ends up blocked iff it started blocked and no request for that floor opened it |
| NavMeshFlagFix.UnblockBit | Common/Navigation/NavMeshBuilder.cs:310-342 | the same for one request |
| NavMeshFlagFix.FixedFlags | Common/Navigation/NavMeshBuilder.cs:284-347 | after the pass a direction of a floor is open iff some request opened it |
| NavMeshFlagFix.UntouchedStaysBlocked | Common/Navigation/NavMeshBuilder.cs:284-347 | a floor no request is for stays at 0xFF |
| NavMeshFlagFix.FixedEdgeOpen | Common/Navigation/NavMeshBuilder.cs:297-346 | after a pass that did not throw, both ends of each kept edge are open toward each other |
| NavMeshFlagFix.FixedVerticesFindable | Common/Navigation/NavMeshBuilder.cs:219-235 | every vertex of a kept subgraph can be found afterwards, so ValidateAllSubgraphVerticesExistInFloorData cannot throw |
| NavMeshFlagFix.OutsideStaysBlocked | Common/Navigation/NavMeshBuilder.cs:284-347 | floors no kept subgraph reaches stay blocked in every direction |
| NavMeshFlagFix.FirstAtIndex | Common/Navigation/NavMeshBuilder.cs:313-323 | the search stops at the first floor at the height |
| NavMeshFlagFix.EdgeFixableShape | Common/Navigation/NavMeshBuilder.cs:310-342 | whether an edge's two unblocks succeed depends only on heights |
| NavMeshFlagFix.VertexFixableShape | Common/Navigation/NavMeshBuilder.cs:299-345 | the same for all edges of a vertex |
| NavMeshFlagFix.IsRequestSnoc | Common/Navigation/NavMeshBuilder.cs:297-346 | one more subgraph adds the requests of its vertices |
| NavMeshFlagFix.AllFixableSnoc | Common/Navigation/NavMeshBuilder.cs:297-346 | the pass goes through one more subgraph iff it went through the others and that one's edges |
| NavMeshFlagFix.EdgeRequests | Common/Navigation/NavMeshBuilder.cs:303-344 | two requests per neighbour |
| NavMeshFlagFix.EdgeRequestsMembers | Common/Navigation/NavMeshBuilder.cs:303-344 | the requests are the earlier ones and, for each neighbour, the "to" and "from" unblocks |
| NavMeshFlagFix.EdgesFixableAll | Common/Navigation/NavMeshBuilder.cs:303-344 | a neighbour list goes through iff every edge does |
| NavMeshFlagFix.EdgesStep | Common/Navigation/NavMeshBuilder.cs:303-344 | one more edge carried out adds its two requests |
| NavMeshFlagFix.EdgeUnfixable | Common/Navigation/NavMeshBuilder.cs:324-342 | one edge whose floor is missing makes the vertex throw |
| NavMeshSubgraphs.Union | Common/Navigation/NavMeshBuilder.cs:399 | a vertex is in the union iff it is in some subgraph |
| NavMeshSubgraphs.Explore | Common/Navigation/NavMeshBuilder.cs:407-421 | the walk throws KeyNotFound only when some edge dangles; otherwise its set holds the start, is closed under the edges and is generated from the start, and, for symmetric edges, misses every closed set not holding the start |
| NavMeshSubgraphs.ComputeSubgraphs | Common/Navigation/NavMeshBuilder.cs:396-426 | succeeds iff no edge dangles; the subgraphs are then each generated from an unvisited key, cover the keys, and are disjoint when the edges are symmetric |
| NavMeshSubgraphs.AppendComponent | Common/Navigation/NavMeshBuilder.cs:401-424 | one more walk extends the union and keeps every subgraph a component |
| NavMeshSubgraphs.OneWay | Common/Navigation/NavMeshBuilder.cs:466-495 | a dictionary the first-floor rule can gather, closed but not symmetric |
| NavMeshSubgraphs.OneWayPartition | Common/Navigation/NavMeshBuilder.cs:396-426 | walking from A1 then A2 gives {A1, B1} and {A2, B1, A1} |
| NavMeshSubgraphs.OneWayCovered | Common/Navigation/NavMeshBuilder.cs:396-426 | those two cover the keys |
| NavMeshSubgraphs.OneWayFirst | Common/Navigation/NavMeshBuilder.cs:407-421 | the first is the walk from A1 |
| NavMeshSubgraphs.OneWaySecond | Common/Navigation/NavMeshBuilder.cs:407-421 | the second is the walk from A2 |
| NavMeshSubgraphs.OverlapWithoutSymmetry | Common/Navigation/NavMeshBuilder.cs:396-426 | as written, any run starting at A1 yields overlapping subgraphs |
| NavMeshSubgraphs.ExploreUnvisited | Common/Navigation/NavMeshBuilder.cs:407-421 | the corrected walk collects only new vertices, and every edge from them stays in them or leads to an earlier subgraph |
| NavMeshSubgraphs.ComputeDisjointSubgraphs | Common/Navigation/NavMeshBuilder.cs:396-426 | succeeds iff no edge dangles; the subgraphs then cover the keys, are pairwise disjoint, and each edge stays within or leads back to an earlier one |
| NavMeshSubgraphs.AppendSettled | Common/Navigation/NavMeshBuilder.cs:401-424 | one more corrected walk keeps the union, disjointness and settledness |
| NavMeshSubgraphs.AppendDisjoint | Common/Navigation/NavMeshBuilder.cs:423 | a subgraph missing the union keeps the list disjoint |
| NavMeshSubgraphs.SettledKept | Common/Navigation/NavMeshBuilder.cs:423 | appending keeps earlier subgraphs settled |
| NavMeshSubgraphs.SettledLast | Common/Navigation/NavMeshBuilder.cs:423 | the appended subgraph is settled |
| NavMeshSubgraphs.SettledClosed | Common/Navigation/NavMeshBuilder.cs:396-426 | settled subgraphs covering the keys leave no edge dangling |
| NavMeshSubgraphs.PartitionClosed | Common/Navigation/NavMeshBuilder.cs:396-426 | the same for the walk as written |
| NavMeshSubgraphs.SizeFilter | Common/Navigation/NavMeshBuilder.cs:185-190 | with the option on, exactly the subgraphs of at least 100 vertices; with it off, all of them |
| NavMeshSubgraphs.SizeFilterConcat | Common/Navigation/NavMeshBuilder.cs:188 | the filter keeps the order of the subgraphs |
| NavMeshSubgraphs.SizeFilterKeepsComponents | Common/Navigation/NavMeshBuilder.cs:185-190 | the kept subgraphs are still closed and generated from one of their vertices |
| NavMeshRims.InwardNotInMask | Common/Navigation/NavMeshBuilder.cs:262-277 | a direction that does not step across a rim is not in that rim's mask |
| NavMeshRims.NothingBeyondRim | Common/Navigation/NavMeshBuilder.cs:243-254 | no vertex of a subgraph lies beyond the min/max block coordinates found |
| NavMeshRims.SameDirection | Common/Navigation/NavMeshUtil.cs:8-15 | two direction flags that share a bit are equal |
| NavMeshRims.CoveredMask | Common/Navigation/NavMeshBuilder.cs:262 | a byte holding each direction of a mask has `~flags & mask == 0` |
| NavMeshRims.CellIndexInjective | Common/Navigation/NavMeshBuilder.cs:258 | within the grid's width, BY * width + BX determines the block |
| NavMeshRims.HitIsFor | Common/Navigation/NavMeshBuilder.cs:310-342 | a request changing a floor at v's height in v's block is for v |
| NavMeshRims.TowardStaysIn | Common/Navigation/NavMeshBuilder.cs:305-319 | opening v toward a neighbour of its subgraph never opens it across a rim at v |
| NavMeshRims.BackStaysIn | Common/Navigation/NavMeshBuilder.cs:306-336 | opening v back toward a vertex of its subgraph never opens it across a rim at v |
| NavMeshRims.NoneOpensOutward | Common/Navigation/NavMeshBuilder.cs:297-346 | with symmetric edges, no request of the pass opens a rim vertex toward its rim |
| NavMeshRims.RequestInward | Common/Navigation/NavMeshBuilder.cs:303-343 | each request for a rim vertex of a closed set opens it inward |
| NavMeshRims.RepairedShape | Common/Navigation/NavMeshBuilder.cs:291-346 | the pass keeps the blocks and their floor counts |
| NavMeshRims.DirectionStaysShut | Common/Navigation/NavMeshBuilder.cs:291-346 | a direction no request for v opens stays blocked on v's floors at its height |
| NavMeshRims.FloorStaysShut | Common/Navigation/NavMeshBuilder.cs:291-346 | such a floor keeps every such direction of the mask |
| NavMeshRims.SideStaysShut | Common/Navigation/NavMeshBuilder.cs:258-278 | every floor of v's block at v's height passes that rim's test |
| NavMeshRims.TargetsInWidth | Common/Navigation/NavMeshBuilder.cs:297-346 | every request is for a vertex inside the grid's width |
| NavMeshRims.RimShut | Common/Navigation/NavMeshBuilder.cs:256-279 | v's floors at its height are blocked toward each rim v lies on |
| NavMeshRims.FixedRimsBlocked | Common/Navigation/NavMeshBuilder.cs:238-281 | after FixDirectionFlagsToMatchSubgraphs, with symmetric edges, ValidateEdgesAtBoundsAreBlocked finds every rim vertex blocked outward and cannot throw |
| NavMeshBuilder.BoundsError | Common/Navigation/NavMeshBuilder.cs:62-66 | the constructor passes iff the bounds are ordered and the minimum corner is not negative; the ordering error comes first |
| NavMeshBuilder.BlockCount | Common/Navigation/NavMeshBuilder.cs:83-84 | Math.Ceiling(extent / step): the fewest blocks, at least one, that cover the extent |
| NavMeshBuilder.DivideExact | Common/Navigation/NavMeshBuilder.cs:83 | a quotient times the step is the extent |
| NavMeshBuilder.QuotientOf | Common/Navigation/NavMeshBuilder.cs:83 | a quotient is fixed by its product |
| NavMeshBuilder.MultiplyBounds | Common/Navigation/NavMeshBuilder.cs:83 | the ceiling's blocks cover the extent by less than one step more |
| NavMeshBuilder.MultiplyUpper | Common/Navigation/NavMeshBuilder.cs:83 | upper half of that bound |
| NavMeshBuilder.MultiplyLower | Common/Navigation/NavMeshBuilder.cs:83 | lower half of that bound |
| NavMeshBuilder.RimSides | Common/Navigation/NavMeshBuilder.cs:256-279 | a vertex's rims are exactly the bounds of the subgraph's extent it attains |
| NavMeshBuilder.Extent | Common/Navigation/NavMeshBuilder.cs:243-254 | the loop finds the least and greatest block coordinates of the subgraph, each attained |
| NavMeshBuilder.Builder.constructor | Common/Navigation/NavMeshBuilder.cs:68-85 | the bounds and step are stored, the grid is BlockCount wide and high and every block is null |
| NavMeshBuilder.Builder.Create | Common/Navigation/NavMeshBuilder.cs:60-86 | throws the first failing check; otherwise a builder as the constructor makes it |
| NavMeshBuilder.Builder.BlockIndexFromWorld | Common/Navigation/NavMeshBuilder.cs:509-522 | the index when not negative and not past the length; one past the end gets through |
| NavMeshBuilder.Builder.BlockIndexOfCorner | Common/Navigation/NavMeshBuilder.cs:509-522 | a block's corner maps back to that block |
| NavMeshBuilder.Builder.BlockOfCorner | Common/Navigation/NavMeshBuilder.cs:514-515 | the half-step offset then truncation gives the block coordinate |
| NavMeshBuilder.Builder.AddFloorPoint | Common/Navigation/NavMeshBuilder.cs:499-507 | an index outside throws ArgumentOutOfRange and one past the end IndexOutOfRange, nothing changed; otherwise exactly that block gains a floor at (int)(z*100), blocked every way |
| NavMeshBuilder.Builder.CollectEdgesBetweenFloorLists | Common/Navigation/NavMeshBuilder.cs:453-497 | the edges become CollectEdges of the old ones, whose completeness and soundness NavMeshFloors proves |
| NavMeshBuilder.Builder.CollectFloorsStep | Common/Navigation/NavMeshBuilder.cs:466-496 | one more centre floor is linked after the others |
| NavMeshBuilder.Builder.LinkOne | Common/Navigation/NavMeshBuilder.cs:466-496 | one pass of the outer loop links that floor |
| NavMeshBuilder.Builder.FindLink | Common/Navigation/NavMeshBuilder.cs:473-495 | the inner loop finds the first neighbour floor open back and within the step |
| NavMeshBuilder.Builder.GatherEdgeVertices | Common/Navigation/NavMeshBuilder.cs:429-451 | the dictionary built is Gathered, which is complete, sound and closed |
| NavMeshBuilder.Builder.GatherBlock | Common/Navigation/NavMeshBuilder.cs:436-447 | one block's eight calls |
| NavMeshBuilder.Builder.CollectToward | Common/Navigation/NavMeshBuilder.cs:440-447 | the k-th of those calls |
| NavMeshBuilder.Builder.FixDirectionFlagsToMatchSubgraphs | Common/Navigation/NavMeshBuilder.cs:284-347 | shape kept; succeeds iff every edge's floors can be found, with one of the two "should exist" errors otherwise; on success the flags are ApplyAll of the pass's requests over the blanked grid |
| NavMeshBuilder.Builder.AllFixableInfix | Common/Navigation/NavMeshBuilder.cs:297-346 | a pass through all subgraphs goes through the first n |
| NavMeshBuilder.Builder.BlockAll | Common/Navigation/NavMeshBuilder.cs:291-294 | the grid becomes Blank of the old one |
| NavMeshBuilder.Builder.BlockList | Common/Navigation/NavMeshBuilder.cs:293-294 | one block's floors all set to 0xFF |
| NavMeshBuilder.Builder.FixEdge | Common/Navigation/NavMeshBuilder.cs:305-342 | both ends of the edge unblocked toward each other, or the error of the end not found |
| NavMeshBuilder.Builder.UnblockFloor | Common/Navigation/NavMeshBuilder.cs:310-325 | succeeds iff the floor can be found, and then clears the direction's bit on it only |
| NavMeshBuilder.Builder.FindFloor | Common/Navigation/NavMeshBuilder.cs:313-323 | the index of the first floor at v's height, or the error of a missing one |
| NavMeshBuilder.Builder.ValidateAllSubgraphVerticesExistInFloorData | Common/Navigation/NavMeshBuilder.cs:219-235 | passes iff every vertex of every subgraph has a floor at its height in its block |
| NavMeshBuilder.Builder.ValidateEdgesAtBoundsAreBlocked | Common/Navigation/NavMeshBuilder.cs:238-281 | passes iff every rim vertex of every subgraph has its floors at its height blocked outward |
| NavMeshBuilder.Builder.ValidateRim | Common/Navigation/NavMeshBuilder.cs:242-279 | the same for one subgraph |
| NavMeshBuilder.Builder.CheckRim | Common/Navigation/NavMeshBuilder.cs:258-278 | the four side tests of one vertex, in order left, right, bottom, top |
| NavMeshBuilder.Builder.CheckSides | Common/Navigation/NavMeshBuilder.cs:259-278 | the side tests for the rims the vertex lies on |
| NavMeshBuilder.Builder.CheckSide | Common/Navigation/NavMeshBuilder.cs:259-263 | passes iff each floor at the height has every bit of the mask set; a null list throws |
| NavMeshBuilder.Builder.CompilerOf | Common/Navigation/NavMeshBuilder.cs:380 | the compiler it hands the grid to is well-formed |
| NavMeshBuilder.Builder.Build | Common/Navigation/NavMeshBuilder.cs:351-384 | an empty subgraph throws; otherwise the subgraph's extent decides the window, corner and height range (z1 = minZ/100, z2 = maxZ/100 + 1) handed to the compiler |
| NavMeshBuilder.Builder.HundredthsToUnits | Common/Navigation/NavMeshBuilder.cs:376-377 | (int)(z/100f) for z >= 0 is z div 100 |
| NavMeshBuilder.Builder.Candidates | Common/Navigation/NavMeshBuilder.cs:595-658 | exactly the neighbour floors that pass the tests |
| NavMeshBuilder.Builder.Toward | Common/Navigation/NavMeshBuilder.cs:583-661 | leaving the grid or a null block is blocked; otherwise blocked iff no floor passes, and a second passing floor throws |
| NavMeshBuilder.Builder.IsDirectionBlocked | Common/Navigation/NavMeshBuilder.cs:583-661 | the loop agrees with Toward |
| NavMeshBuilder.Builder.RowMajor | Common/Navigation/NavMeshBuilder.cs:668 | y * width + x is inside the grid |
| NavMeshBuilder.Builder.CandidatesStep | Common/Navigation/NavMeshBuilder.cs:595-658 | one more floor examined |
| NavMeshBuilder.Builder.CandidatesGrow | Common/Navigation/NavMeshBuilder.cs:595-658 | candidates only grow along the loop |
| NavMeshBuilder.Builder.BlockedFlags | Common/Navigation/NavMeshBuilder.cs:554-581 | Ok iff none of the eight tests throws |
| NavMeshBuilder.Builder.Combined | Common/Navigation/NavMeshBuilder.cs:561-580 | Ok iff every verdict is, otherwise one of their errors |
| NavMeshBuilder.Builder.BlockedFlagsBits | Common/Navigation/NavMeshBuilder.cs:554-581 | a direction's bit is set iff that direction is blocked |
| NavMeshBuilder.Builder.CombinedBits | Common/Navigation/NavMeshBuilder.cs:561-580 | the fold sets a direction's bit iff its verdict is blocked |
| NavMeshBuilder.Builder.Marked | Common/Navigation/NavMeshBuilder.cs:563-564 | the bit added iff blocked, the error passed on |
| NavMeshBuilder.Builder.GetBlockedDirections | Common/Navigation/NavMeshBuilder.cs:554-581 | the flags byte of BlockedFlags, or its error |
| NavMeshBuilder.Builder.Mark | Common/Navigation/NavMeshBuilder.cs:563-578 | one test and its bit |
| NavMeshBuilder.Builder.FlagByte | Common/Navigation/NavMeshBuilder.cs:545 | the byte stored holds the flags |
| NavMeshCompiler.Encoded | Common/Navigation/NavMeshCompiler.cs:73-84 | a kept floor's entry carries its flags and its height encoded over [z1, z2] |
| NavMeshCompiler.KeptEntries | Common/Navigation/NavMeshCompiler.cs:71-85 | only floors of the list are kept, in list order |
| NavMeshCompiler.Triples | Common/Navigation/NavMeshCompiler.cs:82-84 | three bytes per entry |
| NavMeshCompiler.TriplesAt | Common/Navigation/NavMeshCompiler.cs:82-84 | triple k is entry k's flags, height low byte, height high byte |
| NavMeshCompiler.RowCells | Common/Navigation/NavMeshCompiler.cs:66-107 | one cell per block of the row |
| NavMeshCompiler.Window | Common/Navigation/NavMeshCompiler.cs:62-108 | one cell per block of the window |
| NavMeshCompiler.EmptyCellIsImpassable | Common/Navigation/NavMeshCompiler.cs:103-106 | 0x00FF0000 reads as no floor, every direction blocked |
| NavMeshCompiler.DecodesGrow | Common/Navigation/NavMeshCompiler.cs:100 | appending to the buffer keeps earlier words decoding the same |
| NavMeshCompiler.TriplesSnoc | Common/Navigation/NavMeshCompiler.cs:82-84 | one more entry appends its triple |
| NavMeshCompiler.WordFields | Common/Navigation/NavMeshCompiler.cs:101 | a word's count and offset read back |
| NavMeshCompiler.SingleDecodes | Common/Navigation/NavMeshCompiler.cs:88-94 | the inline word of one floor unpacks to that floor |
| NavMeshCompiler.MultiDecodes | Common/Navigation/NavMeshCompiler.cs:95-102 | a word pointing at the triples appended at the buffer's end unpacks to them |
| NavMeshCompiler.KeptStep | Common/Navigation/NavMeshCompiler.cs:71-85 | one more floor of the list considered |
| NavMeshCompiler.GatherCell | Common/Navigation/NavMeshCompiler.cs:68-86 | the bytes are the triples of the floors not fully blocked and in the subgraph |
| NavMeshCompiler.EncodeCell | Common/Navigation/NavMeshCompiler.cs:88-106 | throws iff more than 255 floors are kept; otherwise the buffer grows by the triples only for two floors or more, and the word decodes to the kept floors |
| NavMeshCompiler.WindowAt | Common/Navigation/NavMeshCompiler.cs:60-66 | cell k of the new grid is block (startBX + k mod width, startBY + k div width) |
| NavMeshCompiler.DivModRow | Common/Navigation/NavMeshCompiler.cs:60-66 | row and column of a new-grid index |
| NavMeshCompiler.Build | Common/Navigation/NavMeshCompiler.cs:41-118 | argument errors first, then too many heights, then the height limit; otherwise a mesh whose every word decodes to the window's kept floors |
| NavMeshCompiler.RowsFit | Common/Navigation/NavMeshCompiler.cs:62-66 | rows written stay inside the grid |
| NavMeshCompiler.UnfitGrows | Common/Navigation/NavMeshCompiler.cs:97-98 | an oversized cell in the first rows stays one in the whole window |
| NavMeshCompiler.FillGrid | Common/Navigation/NavMeshCompiler.cs:62-108 | the words and buffer of the window, or too many heights at the first oversized block |
| NavMeshCompiler.FillWindowRow | Common/Navigation/NavMeshCompiler.cs:62-107 | one more row of the window written |
| NavMeshCompiler.WindowStep | Common/Navigation/NavMeshCompiler.cs:62-108 | one more row |
| NavMeshCompiler.RowStep | Common/Navigation/NavMeshCompiler.cs:66-107 | one more block |
| NavMeshCompiler.StoredStep | Common/Navigation/NavMeshCompiler.cs:120-148 | one more cell adds its triples only when it has two floors or more |
| NavMeshCompiler.DecodesStep | Common/Navigation/NavMeshCompiler.cs:66-107 | earlier words keep decoding when the buffer grows |
| NavMeshCompiler.FillRow | Common/Navigation/NavMeshCompiler.cs:66-107 | the words of the row's blocks, each decoding to its kept floors |
| NavMeshCompiler.FillBlock | Common/Navigation/NavMeshCompiler.cs:68-106 | the block's word and buffer, or too many heights |
| CompiledNavMesh.Create | Common/Navigation/CompiledNavMesh.cs:133-147 | Convert.ToUInt16 throws unless width and height fit in 16 bits; otherwise the fields given |
| CompiledNavMesh.FloorCount | Common/Navigation/CompiledNavMesh.cs:238 | the top byte of the word |
| CompiledNavMesh.Offset | Common/Navigation/CompiledNavMesh.cs:246 | the low 24 bits, which with the count rebuild the word |
| CompiledNavMesh.UnpackSingleEntry | Common/Navigation/CompiledNavMesh.cs:294-300 | the word's low 24 bits are flags * 65536 + height |
| CompiledNavMesh.UnpackMultiEntry | Common/Navigation/CompiledNavMesh.cs:301-308 | the triple at the index is flags, height low, height high |
| CompiledNavMesh.CellEntries | Common/Navigation/CompiledNavMesh.cs:234-254 | one entry per stored floor, each read at its place |
| CompiledNavMesh.ForeachHeightAtIndex | Common/Navigation/CompiledNavMesh.cs:234-254 | an index outside the grid throws; otherwise the callback sees the block's entries in order up to the first false |
| CompiledNavMesh.ReadableWalkSucceeds | Common/Navigation/CompiledNavMesh.cs:244-253 | the walk never reads past the buffer when the block's range lies in it |
| CompiledNavMesh.VisitAllIsCellEntries | Common/Navigation/CompiledNavMesh.cs:234-254 | a callback that always continues sees exactly the stored entries |
| CompiledNavMesh.BlockIndexFromWorld | Common/Navigation/CompiledNavMesh.cs:394-406 | -1 or an index in the grid, whose block is the one under the point |
| CompiledNavMesh.IndexOfXY | Common/Navigation/CompiledNavMesh.cs:405 | by * width + bx is inside the grid |
| CompiledNavMesh.SameRowCol | Common/Navigation/CompiledNavMesh.cs:416-419 | an index has one column and row |
| CompiledNavMesh.BlockXYFromIndex | Common/Navigation/CompiledNavMesh.cs:416-419 | i = y * width + x with x in the width, and y in the height for an index in the grid |
| CompiledNavMesh.RowBelow | Common/Navigation/CompiledNavMesh.cs:416-419 | the row of an index in the grid is below the height |
| CompiledNavMesh.WorldFromBlockIndex | Common/Navigation/CompiledNavMesh.cs:408-414 | the z given passes through |
| CompiledNavMesh.WorldPointFromNode | Common/Navigation/CompiledNavMesh.cs:421-424 | the node's decoded height |
| CompiledNavMesh.FindFloorUnderPoint | Common/Navigation/CompiledNavMesh.cs:334-360 | the first stored floor not above z, if at most maxFall below; otherwise the no-node result |
| CompiledNavMesh.FirstFloorIsUnique | Common/Navigation/CompiledNavMesh.cs:344-357 | that floor is unique |
| CompiledNavMesh.GetNeighbor | Common/Navigation/CompiledNavMesh.cs:367-389 | a blocked direction gives the no-node result without a lookup; otherwise the first neighbour floor within maxZStep + 0.5, and a throw when there is none |
| CompiledNavMesh.GetNeighborByOffset | Common/Navigation/CompiledNavMesh.cs:362-365 | an offset that is not a unit step throws; otherwise the lookup above |
| CompiledNavMesh.GetDirectionToNeighborByIndex | Common/Navigation/CompiledNavMesh.cs:641-676 | one of the eight flags or -1 |
| CompiledNavMesh.DirectionToNeighborIsStep | Common/Navigation/CompiledNavMesh.cs:641-676 | a direction returned leads from start to end inside the grid |
| CompiledNavMesh.NeighborStepHasDirection | Common/Navigation/CompiledNavMesh.cs:641-676 | every such step is found |
| CompiledNavMesh.NumberOfSetBitsCounts | Common/Navigation/CompiledNavMesh.cs:426-431 | on a flags byte the count is the number of set bits |
| CompiledNavMesh.NibbleSums | Common/Navigation/CompiledNavMesh.cs:428-430 | the first steps leave the byte's count in the lowest byte |
| CompiledNavMesh.TopByteOfSpread | Common/Navigation/CompiledNavMesh.cs:430 | the multiplication copies it to the top byte |
| CompiledNavMesh.Words | Common/Navigation/CompiledNavMesh.cs:174-175 | four bytes per grid word |
| CompiledNavMesh.WithHeader | Common/Navigation/CompiledNavMesh.cs:208 | the mesh has the header, grid and buffer given |
| CompiledNavMesh.EncodeHeader | Common/Navigation/CompiledNavMesh.cs:165-173 | 32 header bytes |
| CompiledNavMesh.Encode | Common/Navigation/CompiledNavMesh.cs:162-178 | 36 bytes plus four per word plus the buffer |
| CompiledNavMesh.Save | Common/Navigation/CompiledNavMesh.cs:162-178 | the method writes Encode |
| CompiledNavMesh.WordsAppend | Common/Navigation/CompiledNavMesh.cs:174-175 | one more word appends its four bytes |
| CompiledNavMesh.ReadWords | Common/Navigation/CompiledNavMesh.cs:203-204 | n words, word k at position p + 4k |
| CompiledNavMesh.DecodeHeaderAccepted | Common/Navigation/CompiledNavMesh.cs:183-198 | a header read passed every check |
| CompiledNavMesh.DecodeMeshShape | Common/Navigation/CompiledNavMesh.cs:180-209 | a mesh read has an accepted header and a full grid, and ends within the stream |
| CompiledNavMesh.DecodeBodyShape | Common/Navigation/CompiledNavMesh.cs:199-208 | the same after the header |
| CompiledNavMesh.LoadHeader | Common/Navigation/CompiledNavMesh.cs:182-200 | the header reads and checks agree with DecodeHeader |
| CompiledNavMesh.Load | Common/Navigation/CompiledNavMesh.cs:180-209 | the method agrees with DecodeMesh, on the value and on the error |
| CompiledNavMesh.LoadBody | Common/Navigation/CompiledNavMesh.cs:201-208 | the method agrees with DecodeBody, on the value and on the error; a negative grid count throws OverflowException before anything is read |
| CompiledNavMesh.SizeProductBound | Common/Navigation/CompiledNavMesh.cs:201 | the product of two ushort sizes is below 2^32 |
| CompiledNavMesh.GridCount | Common/Navigation/CompiledNavMesh.cs:201 | the int grid count is the product of the sizes below 2^31 blocks and the product less 2^32 (negative) from there on |
| CompiledNavMesh.DecodeBodyOkIff | Common/Navigation/CompiledNavMesh.cs:201-206 | the body reads iff the grid count is below 2^31, the grid and a non-negative buffer length are there; from 2^31 blocks on it is the OverflowException of `new uint[gridCount]` |
| CompiledNavMesh.DecodeBodyOk | Common/Navigation/CompiledNavMesh.cs:201-208 | and then what it reads |
| CompiledNavMesh.LoadGrid | Common/Navigation/CompiledNavMesh.cs:202-204 | given a non-negative count, the loop reads the words, or EndOfStream when they are not all there |
| CompiledNavMesh.DecodeHeaderOf | Common/Navigation/CompiledNavMesh.cs:182-200 | a header whose fields read back is read |
| CompiledNavMesh.EncodeHeaderFields | Common/Navigation/CompiledNavMesh.cs:165-173 | where each field sits in the saved header |
| CompiledNavMesh.LoadSavedHeader | Common/Navigation/CompiledNavMesh.cs:162-200 | an accepted saved header reads back as itself |
| CompiledNavMesh.LoadSavedWords | Common/Navigation/CompiledNavMesh.cs:174-175 | saved words read back |
| CompiledNavMesh.EncodeParts | Common/Navigation/CompiledNavMesh.cs:162-178 | where each part sits in a saved mesh |
| CompiledNavMesh.DecodeMeshOf | Common/Navigation/CompiledNavMesh.cs:180-209 | a mesh whose parts read back is read |
| CompiledNavMesh.DecodeBodyOf | Common/Navigation/CompiledNavMesh.cs:201-208 | the same after the header |
| CompiledNavMesh.HeaderOfSaved | Common/Navigation/CompiledNavMesh.cs:162-200 | a saved mesh's header reads back |
| CompiledNavMesh.GridOfSaved | Common/Navigation/CompiledNavMesh.cs:174-204 | its grid reads back |
| CompiledNavMesh.HeightsOfSaved | Common/Navigation/CompiledNavMesh.cs:176-206 | its buffer reads back |
| CompiledNavMesh.LoadSaved | Common/Navigation/CompiledNavMesh.cs:162-209 | Load(Save(m)) is m, wherever the bytes stand, and stops right after them |
| CompiledNavMesh.LoadSavedFile | Common/Navigation/CompiledNavMesh.cs:162-209 | the same for a file holding one mesh |
| CompiledNavMesh.LoadSavedOverflows | Common/Navigation/CompiledNavMesh.cs:162-209 | a saved mesh of 2^31 blocks or more does not read back: Load throws OverflowException |
| CompiledNavMesh.MaxZStepNotChecked | Common/Navigation/CompiledNavMesh.cs:192-194 | as written, a mesh with maxZStep 100 loads |
| CompiledNavMesh.DecodeHeaderChecked | Common/Navigation/CompiledNavMesh.cs:192-194 | corrected: a header read has maxZStep within 0..16 |
| CompiledNavMesh.CheckedAgrees | Common/Navigation/CompiledNavMesh.cs:183-198 | where both words are in range, the corrected read agrees with Load |
| CompiledNavMesh.DecodeMeshes | Common/Navigation/CompiledNavMesh.cs:35-36 | count meshes |
| CompiledNavMesh.LoadSet | Common/Navigation/CompiledNavMesh.cs:28-38 | the method agrees with DecodeSet |
| CompiledNavMesh.LoadMeshes | Common/Navigation/CompiledNavMesh.cs:35-36 | the loop agrees with DecodeMeshes |
| CompiledNavMesh.LoadSavedEach | Common/Navigation/CompiledNavMesh.cs:24-36 | each saved mesh reads back |
| CompiledNavMesh.LoadSavedMeshes | Common/Navigation/CompiledNavMesh.cs:24-36 | saved meshes read back in order |
| CompiledNavMesh.LoadSavedSet | Common/Navigation/CompiledNavMesh.cs:19-38 | a saved set reads back with the same meshes in the same order |
| NavMeshPathing.FlagWeight | Common/Navigation/CompiledNavMesh.cs:452 | at most eight blocked directions |
| NavMeshPathing.FlagWeightCounts | Common/Navigation/CompiledNavMesh.cs:452 | the weight is NumberOfSetBits of the flags byte |
| NavMeshPathing.StepCost | Common/Navigation/CompiledNavMesh.cs:462-463 | between 1 and 1.4142 + 4 |
| NavMeshPathing.StepCostByDirection | Common/Navigation/CompiledNavMesh.cs:462-463 | an axis step costs 1, a diagonal (bit of 0xAA) 1.4142, plus half the blocked directions of the floor reached |
| NavMeshPathing.PushRecorded | Common/Navigation/CompiledNavMesh.cs:466-472 | only nodes with a recorded cost are in the frontier |
| NavMeshPathing.RecordKeeps | Common/Navigation/CompiledNavMesh.cs:465-472 | every recorded cost is at least one more than its predecessor's, and costs only drop |
| NavMeshPathing.StepKeeps | Common/Navigation/CompiledNavMesh.cs:459-472 | every recorded node is one open step from its predecessor |
| NavMeshPathing.Widen | Common/Navigation/CompiledNavMesh.cs:466-472 | more recorded nodes keep the frontier recorded |
| NavMeshPathing.Test | Common/Navigation/CompiledNavMesh.cs:457-474 | a blocked or dearer neighbour changes nothing; otherwise it is recorded and pushed and some cost dropped; GetNeighbor's throw leaves the frontier as it was |
| NavMeshPathing.Relax | Common/Navigation/CompiledNavMesh.cs:462-473 | new_cost is the current cost plus the step cost, the priority (new_cost + heuristic) * 10 truncated, and the state is kept |
| NavMeshPathing.PushKeeps | Common/Navigation/CompiledNavMesh.cs:466-472 | recording and pushing a cheaper neighbour keeps the search state |
| NavMeshPathing.PopRecorded | Common/Navigation/CompiledNavMesh.cs:480 | a popped node has a recorded cost |
| NavMeshPathing.DroppedLater | Common/Navigation/CompiledNavMesh.cs:484-491 | drops compose over the eight tests |
| NavMeshPathing.DroppedStays | Common/Navigation/CompiledNavMesh.cs:484-491 | drops compose over the eight tests |
| NavMeshPathing.Expand | Common/Navigation/CompiledNavMesh.cs:484-491 | the eight tests in the source's order keep the search state |
| NavMeshPathing.StepInUniverse | Common/Navigation/CompiledNavMesh.cs:459 | a neighbour is a floor of a block of the grid |
| NavMeshPathing.RecordedInUniverse | Common/Navigation/CompiledNavMesh.cs:438-472 | the search records finitely many nodes |
| NavMeshPathing.PotentialDrops | Common/Navigation/CompiledNavMesh.cs:466-468 | lowering a cost lowers the total |
| NavMeshPathing.Unchanged | Common/Navigation/CompiledNavMesh.cs:466 | no new node and no cheaper cost means nothing changed |
| NavMeshPathing.Progress | Common/Navigation/CompiledNavMesh.cs:478-494 | a new node shrinks what is left to record |
| NavMeshPathing.AStarFrom | Common/Navigation/CompiledNavMesh.cs:434-499 | the loop ends; came_from maps each recorded node to a predecessor one open step away at a cost at least one lower, back to the start; with start == goal only the start is recorded |
| NavMeshPathing.AStar | Common/Navigation/CompiledNavMesh.cs:434-499 | the same with default(NodeId) as the start's predecessor |
| NavMeshPathing.Backtrack | Common/Navigation/CompiledNavMesh.cs:513-531 | the gathered points are those of nodes walked from the goal, each followed by its recorded predecessor, the start never among them after the goal; it ends at the start or at a "no node", or throws KeyNotFound at a missing key |
| NavMeshPathing.Reverse | Common/Navigation/CompiledNavMesh.cs:538-542 | the points in reverse order |
| NavMeshPathing.AbsReal | Common/Navigation/CompiledNavMesh.cs:573 | Math.Abs is non-negative and equals x or -x |
| NavMeshPathing.DeltaZ | Common/Navigation/CompiledNavMesh.cs:587 | the height change into point i |
| NavMeshPathing.ReducePath | Common/Navigation/CompiledNavMesh.cs:557-637 | fewer than two points give none, two give the last; otherwise a subsequence of the points after the first, in order, ending with the last point (which is kept once) |
| NavMeshPathing.WalkSteps | Common/Navigation/CompiledNavMesh.cs:434-531 | over a finished search, a completed walk from a goal other than the start is a chain of open mesh steps, ending one step from the start when it ends there |
| NavMeshPathing.KeptInOrder | Common/Navigation/CompiledNavMesh.cs:538-552 | the kept points are walked nodes in reverse walk order, never the goal nor the node next to the start |
| NavMeshPathing.KeptPointsOnWalk | Common/Navigation/CompiledNavMesh.cs:538-544 | every kept point is the world point of a walked node |
| NavMeshPathing.FinishPath | Common/Navigation/CompiledNavMesh.cs:538-553 | the path ends with exactEnd; every other point is a walked node's, in reverse walk order (from the start's side towards the goal); fewer than three points give [exactEnd] |
| NavMeshPathing.LoneStartWalk | Common/Navigation/CompiledNavMesh.cs:513-531 | with only the start recorded the walk stops at once when its predecessor is a "no node" and otherwise reaches a missing key |
| NavMeshPathing.WalkPath | Common/Navigation/CompiledNavMesh.cs:513-553 | the walk back (Backtrack's chain) and its reduction: the path ends with exactEnd and its other points are walked nodes' in reverse walk order; the only error is KeyNotFound |
| NavMeshPathing.FindPathFrom | Common/Navigation/CompiledNavMesh.cs:502-554 | over the search's came_from: the path ends with exactEnd, its other points are nodes of the walk back from the goal in reverse order, and that walk is a chain of open mesh steps ending at the start or at a "no node" |
| NavMeshPathing.FindPath | Common/Navigation/CompiledNavMesh.cs:502-554 | as written, the same; start == goal throws KeyNotFound unless the start is default(NodeId) |
| NavMeshPathing.FindPathCorrected | Common/Navigation/CompiledNavMesh.cs:502-554 | corrected: the same, and a path from a node to itself is [exactEnd] |
| H32Loader.ISqrt | Common/FileFormats/H32Loader.cs:34 | (int)Math.Sqrt(n) is the largest w with w * w <= n |
| H32Loader.Root | Common/FileFormats/H32Loader.cs:34 | the search keeps w * w <= n and ends at the integer square root |
| H32Loader.WidthPositive | Common/FileFormats/H32Loader.cs:34 | a file with a record has a positive width |
| H32Loader.Vertices | Common/FileFormats/H32Loader.cs:39-62 | one vertex per record |
| H32Loader.RowColumn | Common/FileFormats/H32Loader.cs:57-61 | k = y * width + x gives row y and column x |
| H32Loader.NextCell | Common/FileFormats/H32Loader.cs:57-61 | x wraps to 0 and y advances at the end of a row, keeping k = y * width + x |
| H32Loader.LoadStep | Common/FileFormats/H32Loader.cs:41-61 | one more record appends its vertex, adds its index to the cut-outs when its material is 0x3F, and clears isEmpty when its height is not 0 |
| H32Loader.Loader.constructor | Common/FileFormats/H32Loader.cs:12-15 | no vertices, isEmpty, no cut-outs |
| H32Loader.Loader.Load | Common/FileFormats/H32Loader.cs:30-64 | succeeds iff the length is a multiple of 3 (a partial record throws EndOfStream); then the fields hold the file's vertices, cut-outs and flatness |
| H32Loader.Loader.VertexLookup | Common/FileFormats/H32Loader.cs:66-69 | the list indexer throws unless y * width + x is in the list |
| H32Loader.Loader.IsCutout | Common/FileFormats/H32Loader.cs:71-74 | index y * width + x is a cut-out |
| H32Loader.Open | Common/FileFormats/H32Loader.cs:25-28 | the constructor runs Load |
| H32Loader.Record | Common/FileFormats/H32Loader.cs:41-45 | record k's height and material are the reads at 3k, and Position / 3 - 1 after them is k |
| H32Loader.CutoutIffMaterial | Common/FileFormats/H32Loader.cs:41-46 | on a loaded file, a cell is a cut-out iff its record's material is 0x3F |
| H32Loader.LookupIsGridVertex | Common/FileFormats/H32Loader.cs:53-68 | cell (x, y) is the vertex (2y, 2x, height / 32) of record y * width + x |
| H32Loader.GridIsLargestSquare | Common/FileFormats/H32Loader.cs:34 | width² records fit and (width + 1)² do not |
| H32Loader.EmptyIffFlat | Common/FileFormats/H32Loader.cs:14-51 | isEmpty is false iff some height is not 0 |
| BrushLstLoader.SignatureBytes | Common/FileFormats/BrushLstLoader.cs:47-48 | three bytes, zeros where the stream is short |
| BrushLstLoader.InfosOf | Common/FileFormats/BrushLstLoader.cs:73-95 | one info per record |
| BrushLstLoader.EntriesOf | Common/FileFormats/BrushLstLoader.cs:99-189 | entry k is made from placement k |
| BrushLstLoader.Loader.constructor | Common/FileFormats/BrushLstLoader.cs:28-30 | empty lists and five unused events |
| BrushLstLoader.Loader.Load | Common/FileFormats/BrushLstLoader.cs:45-190 | throws Parse's exception when Parse fails; otherwise the lists and event usage of the parsed file |
| BrushLstLoader.Loader.LoadLists | Common/FileFormats/BrushLstLoader.cs:71-189 | the info list, then the placement list |
| BrushLstLoader.Loader.ReadEntries | Common/FileFormats/BrushLstLoader.cs:98-189 | one entry per placement read, events marked |
| BrushLstLoader.Open | Common/FileFormats/BrushLstLoader.cs:40-43 | the constructor throws iff Parse fails, with its exception |
| BrushLstLoader.SkipTitles | Common/FileFormats/BrushLstLoader.cs:61-68 | the title loop |
| BrushLstLoader.ReadInfos | Common/FileFormats/BrushLstLoader.cs:71-95 | the info loop, in file order |
| BrushLstLoader.ReadInfo | Common/FileFormats/BrushLstLoader.cs:78-93 | one info's reads, or EndOfStream |
| BrushLstLoader.ReadPlacement | Common/FileFormats/BrushLstLoader.cs:101-182 | one placement's reads; a mesh index outside the info list throws IndexOutOfRange before the rest is read |
| BrushLstLoader.InfosStep | Common/FileFormats/BrushLstLoader.cs:73-95 | one more info |
| BrushLstLoader.UsedStep | Common/FileFormats/BrushLstLoader.cs:167-171 | one more placement marks its event |
| BrushLstLoader.EntriesOfStep | Common/FileFormats/BrushLstLoader.cs:188 | one more entry |
| BrushLstLoader.SignatureChecked | Common/FileFormats/BrushLstLoader.cs:47-50 | a file not starting with "CRY" throws "Wrong signature" |
| BrushLstLoader.BlockSizeChecked | Common/FileFormats/BrushLstLoader.cs:54-59 | a block size outside 17..19 throws |
| BrushLstLoader.InfosCount | Common/FileFormats/BrushLstLoader.cs:71-95 | exactly count infos (none for a negative count) |
| BrushLstLoader.InfoIndexes | Common/FileFormats/BrushLstLoader.cs:75-83 | info k has brushInfoIndex k and a normalised name |
| BrushLstLoader.ParsedInfos | Common/FileFormats/BrushLstLoader.cs:71-95 | the records behind the info list |
| BrushLstLoader.InfoNameNormal | Common/FileFormats/BrushLstLoader.cs:83 | the file name has no '\\', no upper-case letter and no NUL at either end, and normalising it again changes nothing |
| BrushLstLoader.NoNulEnds | Common/FileFormats/BrushLstLoader.cs:83 | Trim('\0') leaves no NUL at either end |
| BrushLstLoader.NormalizedEnds | Common/FileFormats/BrushLstLoader.cs:83 | lowering and replacing keep that |
| BrushLstLoader.EntriesInRange | Common/FileFormats/BrushLstLoader.cs:98-189 | exactly count placements, placement k with index k and a mesh index naming an info |
| BrushLstLoader.EntryIndexes | Common/FileFormats/BrushLstLoader.cs:102-109 | in a loaded file every placement names an info |
| BrushLstLoader.SectionsEntries | Common/FileFormats/BrushLstLoader.cs:61-189 | the same after the header |
| BrushLstLoader.ListsEntries | Common/FileFormats/BrushLstLoader.cs:71-189 | the same after the titles |
| BrushLstLoader.BadMeshIndexThrows | Common/FileFormats/BrushLstLoader.cs:107-109 | the first placement with a mesh index outside the info list throws IndexOutOfRange |
| BrushLstLoader.PlacementMatrix | Common/FileFormats/BrushLstLoader.cs:116-143 | the position is the matrix's last column; the rotation holds the 3x3 block, zeros in the fourth row and column, 1 in the corner |
| BrushLstLoader.EntryEvent | Common/FileFormats/BrushLstLoader.cs:161-171 | an event 0..4 is kept, any other leaves 0 |
| BrushLstLoader.UsageMatchesEntries | Common/FileFormats/BrushLstLoader.cs:161-171 | decoration 1..4 is marked used iff some entry carries it |
| ObjectsLstLoader.PositionSpansMap | Common/FileFormats/ObjectsLstLoader.cs:39-52 | the stored coordinate 32768 is at mapWidth |
| ObjectsLstLoader.Load | Common/FileFormats/ObjectsLstLoader.cs:26-61 | the method agrees with Objects |
| ObjectsLstLoader.ReadRecords | Common/FileFormats/ObjectsLstLoader.cs:41-58 | the loop agrees with Records |
| ObjectsLstLoader.RecordsStep | Common/FileFormats/ObjectsLstLoader.cs:41-58 | one more record |
| ObjectsLstLoader.ReadRecord | Common/FileFormats/ObjectsLstLoader.cs:43-55 | the seven reads of a record, or EndOfStream |
| ObjectsLstLoader.RecordsInOrder | Common/FileFormats/ObjectsLstLoader.cs:41-58 | the loop succeeds iff whole 16-byte records fill the rest; then one item per record, in file order |
| ObjectsLstLoader.RecordsCount | Common/FileFormats/ObjectsLstLoader.cs:41-58 | and their number |
| ObjectsLstLoader.RecordsAt | Common/FileFormats/ObjectsLstLoader.cs:41-58 | item k is the record at 16k |
| ObjectsLstLoader.ItemsStep | Common/FileFormats/ObjectsLstLoader.cs:41-58 | one more record |
| ObjectsLstLoader.PrependedNothing | Common/FileFormats/ObjectsLstLoader.cs:40 | the loop starts from an empty list |
| ObjectsLstLoader.LoadChecks | Common/FileFormats/ObjectsLstLoader.cs:28-35 | a non-positive size throws ArgumentOutOfRange, a non-square map and then a header other than 0x10 throw InvalidOperation |
| ObjectsLstLoader.DegreesOfByteAngle | Common/FileFormats/ObjectsLstLoader.cs:55 | a heading 0..255 becomes 0..360 degrees, rounded down |
| ObjectsLstLoader.DegreesWrap | Common/FileFormats/ObjectsLstLoader.cs:55 | heading * 360 wraps in 32 bits for large headings |
| ObjectsLstLoader.Encode | Common/FileFormats/ObjectsLstLoader.cs:43-49 | 16 bytes per record |
| ObjectsLstLoader.EncodeAll | Common/FileFormats/ObjectsLstLoader.cs:41-58 | 16 bytes per record |
| ObjectsLstLoader.RecordReadsBack | Common/FileFormats/ObjectsLstLoader.cs:43-49 | a written record reads back |
| ObjectsLstLoader.ItemsOf | Common/FileFormats/ObjectsLstLoader.cs:51-57 | item k is made of record k |
| ObjectsLstLoader.RecordsOfEncoded | Common/FileFormats/ObjectsLstLoader.cs:41-58 | written records load back as their items, in order |
| ObjectsLstLoader.LoadEncoded | Common/FileFormats/ObjectsLstLoader.cs:26-61 | a header and records load back as their items |
| WorldIdXmlLoader.Values | Common/FileFormats/WorldIdXmlLoader.cs:36-45 | the set of names seen |
| WorldIdXmlLoader.ValidatedOkIffWellFormed | Common/FileFormats/WorldIdXmlLoader.cs:38-49 | the first loop succeeds iff every name is non-blank, no name repeats and every entry has an id |
| WorldIdXmlLoader.WellFormedSnoc | Common/FileFormats/WorldIdXmlLoader.cs:38-49 | one more entry |
| WorldIdXmlLoader.ValidatedIsLastWins | Common/FileFormats/WorldIdXmlLoader.cs:48 | each id maps to the name of its last entry |
| WorldIdXmlLoader.LastEntryIsLast | Common/FileFormats/WorldIdXmlLoader.cs:48 | a later entry overwrites |
| WorldIdXmlLoader.LaterEntryKeepsLast | Common/FileFormats/WorldIdXmlLoader.cs:48 | an entry with another id leaves it |
| WorldIdXmlLoader.ValidatedHasEveryId | Common/FileFormats/WorldIdXmlLoader.cs:48 | every id is a key |
| WorldIdXmlLoader.FailureSticks | Common/FileFormats/WorldIdXmlLoader.cs:41-44 | the first failing entry's exception ends the load |
| WorldIdXmlLoader.WorldIdXmlLoader.Load | Common/FileFormats/WorldIdXmlLoader.cs:31-56 | a validation error first; otherwise FolderNamesById is filled, and the reverse map throws DuplicateKey iff two names agree up to case, else it maps each lower-cased name back to its id |
| WorldIdXmlLoader.WorldIdXmlLoader.BuildReverse | Common/FileFormats/WorldIdXmlLoader.cs:51-55 | the second loop |
| WorldIdXmlLoader.WorldIdXmlLoader.GetLevelId | Common/FileFormats/WorldIdXmlLoader.cs:58-61 | the lookup, KeyNotFound when absent |
| WorldIdXmlLoader.CapitalNeverFound | Common/FileFormats/WorldIdXmlLoader.cs:54-60 | a name with a capital letter is never found |
| WorldIdXmlLoader.CaseOnlyDuplicateThrowsLater | Common/FileFormats/WorldIdXmlLoader.cs:43-54 | "Abc" and "abc" pass the duplicate check, then Add throws |
| WorldGeoFileBuilder.Ints | ALGeoBuilder/WorldGeoFileBuilder.cs:97-104 | four bytes per int |
| WorldGeoFileBuilder.AsciiBytes | ALGeoBuilder/WorldGeoFileBuilder.cs:130 | one byte per character |
| WorldGeoFileBuilder.Words | ALGeoBuilder/WorldGeoFileBuilder.cs:138-154 | four bytes per float |
| WorldGeoFileBuilder.Builder.constructor | ALGeoBuilder/WorldGeoFileBuilder.cs:19-27 | the fields are the arguments |
| WorldGeoFileBuilder.Builder.CreateWorldGeoFile | ALGeoBuilder/WorldGeoFileBuilder.cs:29-204 | the bytes written are GeoFile: the terrain part, then the brush and vegetation records |
| WorldGeoFileBuilder.WriteTerrain | ALGeoBuilder/WorldGeoFileBuilder.cs:34-117 | the terrain part and whether the conversion aborted |
| WorldGeoFileBuilder.ConvertTerrain | ALGeoBuilder/WorldGeoFileBuilder.cs:49-76 | the loop completes iff the length is a multiple of 3; then the two height bytes of every record, the cut-outs and the flatness |
| WorldGeoFileBuilder.RoomFor | ALGeoBuilder/WorldGeoFileBuilder.cs:49-72 | a whole record has room in the array, and src / 3 - 1 is its index |
| WorldGeoFileBuilder.TerrainStep | ALGeoBuilder/WorldGeoFileBuilder.cs:54-76 | one more record |
| WorldGeoFileBuilder.WriteBrushes | ALGeoBuilder/WorldGeoFileBuilder.cs:120-159 | the brush loop agrees with BrushesOut |
| WorldGeoFileBuilder.WriteVegetation | ALGeoBuilder/WorldGeoFileBuilder.cs:161-202 | the vegetation loop agrees with VegetationOut |
| WorldGeoFileBuilder.BrushesErrStays | ALGeoBuilder/WorldGeoFileBuilder.cs:122-124 | an exception ends the brush loop |
| WorldGeoFileBuilder.VegetationErrStays | ALGeoBuilder/WorldGeoFileBuilder.cs:164-166 | an exception ends the vegetation loop |
| WorldGeoFileBuilder.ConvertedKeepsHeights | ALGeoBuilder/WorldGeoFileBuilder.cs:54-72 | two bytes per record, its first two, in order |
| WorldGeoFileBuilder.ConvertedLength | ALGeoBuilder/WorldGeoFileBuilder.cs:49 | 2 bytes for every 3 |
| WorldGeoFileBuilder.ConvertedHeight | ALGeoBuilder/WorldGeoFileBuilder.cs:56-72 | the converted height of record j is the .h32 loader's |
| WorldGeoFileBuilder.CutoutListIsSet | ALGeoBuilder/WorldGeoFileBuilder.cs:97-104 | the cut-outs are written once each, ascending |
| WorldGeoFileBuilder.CutoutsAsLoaded | ALGeoBuilder/WorldGeoFileBuilder.cs:66-68 | the cut-outs are those the .h32 loader finds |
| WorldGeoFileBuilder.ZeroHeightsIsFlat | ALGeoBuilder/WorldGeoFileBuilder.cs:74-75 | the terrain is empty iff the .h32 loader finds it flat |
| WorldGeoFileBuilder.TerrainLayout | ALGeoBuilder/WorldGeoFileBuilder.cs:41-105 | byte 1, the record count, the converted heights, the cut-out count and list |
| WorldGeoFileBuilder.TerrainStubOrAbort | ALGeoBuilder/WorldGeoFileBuilder.cs:35-117 | no terrain or a flat one gives the stub (byte 0, short 0, int 0); a partial record leaves byte 1 and the count and aborts |
| WorldGeoFileBuilder.AbortWritesNoMeshes | ALGeoBuilder/WorldGeoFileBuilder.cs:90-94 | the abort returns before any placement |
| WorldGeoFileBuilder.SkipIgnoresSpelling | ALGeoBuilder/WorldGeoFileBuilder.cs:206-219 | names with one normal form are skipped alike |
| WorldGeoFileBuilder.SkipIff | ALGeoBuilder/WorldGeoFileBuilder.cs:206-219 | a mesh is kept iff its normal name was loaded and is not empty |
| WorldGeoFileBuilder.WordsAt | ALGeoBuilder/WorldGeoFileBuilder.cs:138-154 | float j stands at 4j |
| WorldGeoFileBuilder.RecordReadsBack | ALGeoBuilder/WorldGeoFileBuilder.cs:133-157 | a record is the name length, the ASCII name, 13 floats and the event byte |
| WorldGeoFileBuilder.AsciiNames | ALGeoBuilder/WorldGeoFileBuilder.cs:130 | ASCII characters are kept, others become '?' |
| WorldGeoFileBuilder.ScaleAndEvent | ALGeoBuilder/WorldGeoFileBuilder.cs:153-200 | a brush has scale 1.0 and its event, vegetation its scale and event 0 |
| DirManager.NormalizePath | Common/DirManager.cs:142-145 | lower case and '/' replaced by '\\', character by character |
| DirManager.NormalizedIsNormal | Common/DirManager.cs:142-145 | the result has no '/' and no upper-case letter |
| DirManager.NormalizeIdempotent | Common/DirManager.cs:142-145 | normalising twice is normalising once |
| DirManager.GetRelativePath | Common/DirManager.cs:147-153 | throws iff the normalised path does not start with the root; otherwise the rest with leading '\\' trimmed |
| DirManager.MakePathRelativeToPak | Common/DirManager.cs:70-74 | Substring throws when a part is too short; otherwise the path without the pak's directory and leading separators |
| DirManager.Paks | Common/DirManager.cs:101-107 | the enumerated .pak files, in order |
| DirManager.LocalsAreNonPakFiles | Common/DirManager.cs:101-110 | the first loop adds each non-pak file's relative path as local and changes nothing else |
| DirManager.LocalsGrow | Common/DirManager.cs:101-110 | one more file |
| DirManager.LocalGrows | Common/DirManager.cs:109 | Add only adds |
| DirManager.NewGrow | Common/DirManager.cs:101-110 | one more file |
| DirManager.CoversGrow | Common/DirManager.cs:101-110 | one more file |
| DirManager.FirstPakWins | Common/DirManager.cs:113-137 | a key held by a pak maps to the first pak holding it unless it already mapped to a pak |
| DirManager.PakEntriesAreNeverLocal | Common/DirManager.cs:120-135 | a key held by a pak never maps to a local file afterwards |
| DirManager.DirManager.SetRootPath | Common/DirManager.cs:29-34 | the lower-cased root; throws iff the directory does not exist |
| DirManager.DirManager.Exists | Common/DirManager.cs:52-55 | the normalised path is a key |
| DirManager.DirManager.GenerateFileListing | Common/DirManager.cs:96-140 | local files first, then each pak's files over them |
| DirManager.DirManager.AddLocalFiles | Common/DirManager.cs:101-110 | the first loop |
| DirManager.DirManager.LocalsLoop | Common/DirManager.cs:101-110 | a failing Add leaves the files added before it |
| DirManager.DirManager.AddOneLocal | Common/DirManager.cs:109 | one local file |
| DirManager.DirManager.AddPakFiles | Common/DirManager.cs:113-137 | the second loop, pak by pak |
| DirManager.DirManager.AddOnePak | Common/DirManager.cs:115-136 | one pak's files |
| DirManager.DirManager.Put | Common/DirManager.cs:119-135 | a local mapping is replaced, a pak mapping kept, a new key added |
| DirManager.PakPairsStep | Common/DirManager.cs:116-118 | one more pak file |
| DirManager.ListingStep | Common/DirManager.cs:116-136 | one more pak file |
| DirManager.AddPairsSnoc | Common/DirManager.cs:116-136 | one more pak file |
| DirManager.LocalStep | Common/DirManager.cs:101-110 | one more enumerated file |
| DirManager.LocalFailureSticks | Common/DirManager.cs:109 | an exception ends the first loop |
| DirManager.PakFailureSticks | Common/DirManager.cs:118 | an exception ends the second loop |
| DirManager.EntryFailureSticks | Common/DirManager.cs:118 | an exception ends the inner loop |
| Form1.Skip | AionClientViewer/Form1.cs:455-467 | one step consumes one or two characters |
| Form1.ConvertLineEndings | AionClientViewer/Form1.cs:452-471 | the loop agrees with Converted |
| Form1.ConvertedAt | AionClientViewer/Form1.cs:455-469 | the conversion goes piece by piece |
| Form1.NoBreaksUnchanged | AionClientViewer/Form1.cs:468 | text without CR or LF is unchanged |
| Form1.FirstStepOfAppend | AionClientViewer/Form1.cs:457-468 | a first step not ending in CR does not depend on what follows |
| Form1.ConvertedAppend | AionClientViewer/Form1.cs:452-471 | conversion distributes over text not ending in CR |
| Form1.BreakThen | AionClientViewer/Form1.cs:457-467 | a break becomes one NewLine |
| Form1.BreakIsOneNewLine | AionClientViewer/Form1.cs:457-467 | a break after text not ending in CR becomes one NewLine |
| Form1.PairIsOneNewLine | AionClientViewer/Form1.cs:457-462 | CR LF becomes one NewLine |
| Form1.LoneCrIsOneNewLine | AionClientViewer/Form1.cs:463-467 | a lone CR becomes one NewLine |
| Form1.LoneLfIsOneNewLine | AionClientViewer/Form1.cs:463-467 | a lone LF becomes one NewLine |
| Form1.ConvertedIdempotent | AionClientViewer/Form1.cs:452-471 | converting twice is converting once |
| Form1.ListedIff | AionClientViewer/Form1.cs:312-320 | Contains ignoring case is membership of the lowered extension |
| Form1.ListsLower | AionClientViewer/Form1.cs:298-304 | the lists are lower case |
| Form1.TextLower | AionClientViewer/Form1.cs:298-299 | the text list is lower case |
| Form1.ImageLower | AionClientViewer/Form1.cs:302-303 | the image list is lower case |
| Form1.PreviewTypeByPriority | AionClientViewer/Form1.cs:307-323 | the first of Pak, Text, Html, Xml, Image, Cgf whose list holds the extension, ignoring case; None iff none does |
| Form1.PreviewTypeIgnoresCase | AionClientViewer/Form1.cs:307-323 | extensions differing in case classify alike |
| Form1.NoExtensionIsNone | AionClientViewer/Form1.cs:309-322 | a file without an extension is None |
| CgfLoader.Floats | Common/FileFormats/CgfLoader.cs:492-509 | n floats |
| CgfLoader.Ints | Common/FileFormats/CgfLoader.cs:558-559 | n ints |
| CgfLoader.Vertices | Common/FileFormats/CgfLoader.cs:400-411 | n vertices |
| CgfLoader.Faces | Common/FileFormats/CgfLoader.cs:414-424 | n faces |
| CgfLoader.FirstFrom | Common/FileFormats/CgfLoader.cs:264-271 | the first node from j on with the chunk id, or none when no node has it |
| CgfLoader.NoChildren | Common/FileFormats/CgfLoader.cs:63 | every node starts without children |
| CgfLoader.ChildrenUpTo | Common/FileFormats/CgfLoader.cs:260-277 | a child list per node |
| CgfLoader.Keys | Common/FileFormats/CgfLoader.cs:188-202 | every key carries nine parameters |
| CgfLoader.Controller | Common/FileFormats/CgfLoader.cs:158-205 | every key of a controller read carries nine parameters |
| CgfLoader.LastKeyAtOrBefore | Common/FileFormats/CgfLoader.cs:587-594 | the last of the first n keys starting at or before ticks, or none when all start later |
| CgfLoader.ClonedUpTo | Common/FileFormats/CgfLoader.cs:582-660 | the clone keeps the number of nodes |
| CgfLoader.Loader.constructor | Common/FileFormats/CgfLoader.cs:115-117 | no nodes and no materials |
| CgfLoader.Loader.Load | Common/FileFormats/CgfLoader.cs:207-278 | throws where Parse fails, with its exception; otherwise the fields hold the parsed chunks, materials, nodes and tree |
| CgfLoader.Loader.LoadChunks | Common/FileFormats/CgfLoader.cs:226-278 | the rest of Load from the table offset |
| CgfLoader.Loader.CloneAtTime | Common/FileFormats/CgfLoader.cs:568-662 | throws iff Clone fails; a new loader over the same bytes whose top-level nodes take the position of their last key at or before ticks |
| CgfLoader.Open | Common/FileFormats/CgfLoader.cs:124-131 | the constructor throws iff Parse fails, with its exception |
| CgfLoader.ReadTable | Common/FileFormats/CgfLoader.cs:231-236 | the chunk table loop, 16-byte headers in order |
| CgfLoader.LoadMaterials | Common/FileFormats/CgfLoader.cs:239-245 | the material loop |
| CgfLoader.LoadMaterialData | Common/FileFormats/CgfLoader.cs:519-563 | one material chunk |
| CgfLoader.ReadInts | Common/FileFormats/CgfLoader.cs:556-559 | n ints, or EndOfStream |
| CgfLoader.LoadNodes | Common/FileFormats/CgfLoader.cs:248-255 | the node loop |
| CgfLoader.GetNodeData | Common/FileFormats/CgfLoader.cs:457-517 | one node chunk |
| CgfLoader.GetMeshData | Common/FileFormats/CgfLoader.cs:368-427 | one mesh chunk, or none when the chunk is not a mesh |
| CgfLoader.ReadVertices | Common/FileFormats/CgfLoader.cs:400-411 | n 24-byte vertices, or EndOfStream |
| CgfLoader.ReadFaces | Common/FileFormats/CgfLoader.cs:414-424 | n 20-byte faces, or EndOfStream |
| CgfLoader.GetHelperData | Common/FileFormats/CgfLoader.cs:429-455 | one helper chunk, or none when the chunk is not a helper |
| CgfLoader.BuildTree | Common/FileFormats/CgfLoader.cs:259-277 | the top-level nodes and child lists of the node list |
| CgfLoader.FindParent | Common/FileFormats/CgfLoader.cs:264-271 | the first node with the parent id |
| CgfLoader.GetControllerData | Common/FileFormats/CgfLoader.cs:158-205 | the method agrees with Controller |
| CgfLoader.ReadKeys | Common/FileFormats/CgfLoader.cs:188-202 | the key loop |
| CgfLoader.RetimeRoots | Common/FileFormats/CgfLoader.cs:582-660 | the node loop of CloneAtTime |
| CgfLoader.RetimeNode | Common/FileFormats/CgfLoader.cs:584-659 | one node's three controllers, in order |
| CgfLoader.ChoosePosition | Common/FileFormats/CgfLoader.cs:587-594 | the position of the last key starting at or before ticks, else the node's own |
| CgfLoader.ParsedTree | Common/FileFormats/CgfLoader.cs:259-277 | the tree of a parse is that of its node list |
| CgfLoader.RootsBelow | Common/FileFormats/CgfLoader.cs:273-276 | every top-level entry names a node |
| CgfLoader.MaterialsErrStays | Common/FileFormats/CgfLoader.cs:239-245 | an exception ends the material loop |
| CgfLoader.NodesErrStays | Common/FileFormats/CgfLoader.cs:249-255 | an exception ends the node loop |
| CgfLoader.ClonedErrStays | Common/FileFormats/CgfLoader.cs:582-660 | an exception ends the clone |
| CgfLoader.SignatureChecked | Common/FileFormats/CgfLoader.cs:213-216 | the signature passes iff the file starts with "NCAion" and two NULs |
| CgfLoader.SignatureFrom | Common/FileFormats/CgfLoader.cs:214-216 | the byte-by-byte comparison |
| CgfLoader.FileTypeChecked | Common/FileFormats/CgfLoader.cs:218-222 | 0xFFFF0001 throws InvalidOperation, any type but 0xFFFF0000 throws IOException |
| CgfLoader.TableExact | Common/FileFormats/CgfLoader.cs:231-236 | exactly count headers, each 16 bytes after the last, failing iff the file ends early |
| CgfLoader.MaterialsKeyed | Common/FileFormats/CgfLoader.cs:239-245 | exactly the material chunks, each under its chunk index |
| CgfLoader.CollisionFlag | Common/FileFormats/CgfLoader.cs:548-551 | the collision float passes iff it is +0, -0 or 1, and marks collision iff it is 1 |
| CgfLoader.MaterialCollisionChecked | Common/FileFormats/CgfLoader.cs:535-560 | a loaded material's collision flag, and a group lists its multicount ids |
| CgfLoader.RootsExact | Common/FileFormats/CgfLoader.cs:260-277 | Nodes is exactly the nodes with parent -1, in order |
| CgfLoader.ChildrenExact | Common/FileFormats/CgfLoader.cs:260-277 | a node's children are exactly the nodes whose parent id names it first, in order |
| CgfLoader.OrphanDropped | Common/FileFormats/CgfLoader.cs:262-271 | a node whose parent id names no node is dropped |
| CgfLoader.ParentIsFirstMatch | Common/FileFormats/CgfLoader.cs:264-271 | the parent carries the parent id and no earlier node does |
| CgfLoader.CollidableFalse | Common/FileFormats/CgfLoader.cs:287-317 | a material found not collidable has no collision flag, nor any member of its group |
| CgfLoader.GroupFalse | Common/FileFormats/CgfLoader.cs:295-314 | the group loop |
| CgfLoader.MoreFuelSameAnswer | Common/FileFormats/CgfLoader.cs:287-317 | the bound on nesting only matters when it runs out |
| CgfLoader.GroupMoreFuel | Common/FileFormats/CgfLoader.cs:295-314 | the same for the group loop |
| CgfLoader.NoMaterialNoCollision | Common/FileFormats/CgfLoader.cs:280-285 | a node without a material is not collidable |
| CgfLoader.ControllerTypeTest | Common/FileFormats/CgfLoader.cs:174-177 | as written, TCB3 accepts every type and TCBQ accepts TCBQ and BEZIER3 |
| CgfLoader.KeysExact | Common/FileFormats/CgfLoader.cs:188-202 | count keys back to back, 36 or 40 bytes each |
| CgfLoader.ControllerChecked | Common/FileFormats/CgfLoader.cs:158-186 | a read controller is a controller chunk with its own index as id and at least one key |
| CgfLoader.RetimedPosition | Common/FileFormats/CgfLoader.cs:584-595 | a retimed node differs only in its position |
| CgfLoader.ClonedShape | Common/FileFormats/CgfLoader.cs:582-660 | exactly the top-level nodes are retimed |
| CgfLoader.CloneRetimesTopLevelOnly | Common/FileFormats/CgfLoader.cs:576-595 | a child node keeps its loaded position |
| PfimHeader.ReadPixelFormat | Common/PfimDds.cs:662-674 | the pixel format read, 32 bytes on; a size other than 32 throws |
| PfimHeader.ReadHeader | Common/PfimDds.cs:643-682 | the header read, 128 bytes on; a wrong magic or header size throws |
| PfimHeader.Words | Common/PfimDds.cs:651-680 | four bytes per word |
| PfimHeader.EncodeHeader | Common/PfimDds.cs:647-680 | a header takes 128 bytes |
| PfimHeader.WordsSplit | Common/PfimDds.cs:651-680 | the words around one word |
| PfimHeader.WordAt | Common/PfimDds.cs:651-680 | word k reads back from byte 4k |
| PfimHeader.EncodedWords | Common/PfimDds.cs:647-680 | every word of a written header reads back |
| PfimHeader.EncodedPixelFormat | Common/PfimDds.cs:662-674 | the written pixel format reads back |
| PfimHeader.EncodedReserved | Common/PfimDds.cs:658-660 | the eleven reserved words read back |
| PfimHeader.HeaderRoundTrip | Common/PfimDds.cs:643-682 | reading a written header gives it back |
| PfimHeader.ReadDx10 | Common/PfimDds.cs:768-778 | the DX10 header read, 20 bytes on |
| PfimHeader.NewDecoderAccepts | Common/PfimDds.cs:780-906 | the BC1, BC3, BC5, R8G8B8A8 and B8G8R8A8 families are accepted, every other format throws ArgumentOutOfRange |
| PfimHeader.DecodesBlocks | Common/PfimDds.cs:780-809 | an uncompressed decoder decodes no block format |
| PfimHeader.NewDecoderMisreadsBc3 | Common/PfimDds.cs:789-792 | as written, BC3 goes to the BC2 (DXT3) decoder |
| PfimHeader.NewDecoderMisreadsBc5 | Common/PfimDds.cs:794-797 | as written, BC5 goes to the BC3 (DXT5) decoder |
| PfimHeader.MatchingDecoder | Common/PfimDds.cs:780-906 | corrected: the same formats accepted, each block format to its own decoder |
| PfimHeader.SelectAccepts | Common/PfimDds.cs:385-422 | a header is accepted iff its FourCC is DXT1, DXT3, DXT5, none or ATI2, or DX10 with a format NewDecoder knows |
| PfimHeader.Create | Common/PfimDds.cs:385-423 | the header read, then the decoder chosen, the body starting at 128 or 148 |
| PfimHeader.SixteenBitFormats | Common/PfimDds.cs:1546-1561 | 4-4-4-4 masks give Rgba16, else the alpha flag gives R5g5b5a1, else the green mask decides |
| PfimHeader.ImageInfoShape | Common/PfimDds.cs:1526-1543 | load info exists for 8, 16, 24 and 32 bits, one pixel per block of depth/8 bytes; any other count throws |
| PfimHeader.StrideRoundsUp | Common/PfimDds.cs:370 | the stride is the least multiple of 4 holding a row |
| PfimHeader.CalcSizeExact | Common/PfimDds.cs:1564-1569 | width * height * blockBytes, an empty dimension counting as one |
| PfimHeader.CalcSizeMultiple | Common/PfimDds.cs:1564-1569 | a 16- or 32-bit size is a whole number of pixels |
| PfimHeader.WrapMultiple | Common/PfimDds.cs:1568 | the cast to int keeps that |
| PfimHeader.Filled | Common/PfimDds.cs:1579 | the buffer keeps its size |
| PfimHeader.Swapped32 | Common/PfimDds.cs:1587-1592 | the swap keeps the length |
| PfimHeader.Nibbles | Common/PfimDds.cs:1597-1599 | a byte's two nibbles |
| PfimHeader.NibblesOf | Common/PfimDds.cs:1597-1599 | nibbles read back |
| PfimHeader.MixTwice | Common/PfimDds.cs:1597-1599 | exchanging low nibbles twice restores a byte |
| PfimHeader.Swapped16 | Common/PfimDds.cs:1595-1601 | the swap keeps the length |
| PfimHeader.Swapped32Involutive | Common/PfimDds.cs:1587-1592 | the Rgba32 swap twice restores the pixels |
| PfimHeader.Swapped16Involutive | Common/PfimDds.cs:1595-1601 | the Rgba16 swap twice restores the pixels |
| PfimHeader.Swapped32Pixel | Common/PfimDds.cs:1589-1591 | a pixel's bytes 0 and 2 exchange, 1 and 3 stay |
| PfimHeader.SwapRgba32 | Common/PfimDds.cs:1587-1592 | the loop gives the swapped buffer and throws IndexOutOfRange iff a last group of one or two bytes remains |
| PfimHeader.Swapped32Points | Common/PfimDds.cs:1587-1592 | pointwise agreement is the swap |
| PfimHeader.Swap16Pair | Common/PfimDds.cs:1597-1599 | where a pair goes |
| PfimHeader.Swapped16Points | Common/PfimDds.cs:1595-1601 | pointwise agreement is the swap |
| PfimHeader.SwapNibbles | Common/PfimDds.cs:1597-1599 | one round of the Rgba16 swap |
| PfimHeader.SwapRgba16 | Common/PfimDds.cs:1595-1601 | the loop gives the swapped buffer and throws IndexOutOfRange iff the length is odd |
| PfimHeader.DecodeUncompressed | Common/PfimDds.cs:1572-1609 | the load info, a CalcSize buffer filled from the body, then the swap |
| PfimHeader.UncompressedFailures | Common/PfimDds.cs:1572-1609 | it fails only on the load info, a negative size, a swap of another format, or the swap loop's index |
| PfimDds.Set | Common/PfimDds.cs:1300-1302 | a write keeps the buffer's length |
| PfimDds.Apply | Common/PfimDds.cs:1288-1307 | writes keep the buffer's length |
| PfimDds.ApplyConcat | Common/PfimDds.cs:1288-1307 | writes in two batches |
| PfimDds.ApplyUntouched | Common/PfimDds.cs:1288-1307 | an untouched byte keeps its value |
| PfimDds.ApplyHit | Common/PfimDds.cs:1288-1307 | a written byte holds the value written |
| PfimDds.RowStartClosed | Common/PfimDds.cs:1306 | row i starts i * depth * width bytes on, modulo 2^32 |
| PfimDds.RowStep | Common/PfimDds.cs:1306 | one row in uint arithmetic |
| PfimDds.PosClosed | Common/PfimDds.cs:1300-1306 | where channel c of pixel (i, j) goes |
| PfimDds.PixelWrites | Common/PfimDds.cs:1300-1302 | one write per channel |
| PfimDds.AfterChannels | Common/PfimDds.cs:1300-1302 | the buffer keeps its length |
| PfimDds.AfterPixels | Common/PfimDds.cs:1295-1303 | the buffer keeps its length |
| PfimDds.AfterRows | Common/PfimDds.cs:1288-1307 | the buffer keeps its length |
| PfimDds.ChannelsApply | Common/PfimDds.cs:1300-1302 | the channel updates are the pixel's writes |
| PfimDds.PixelsApply | Common/PfimDds.cs:1295-1303 | the pixel updates are the row's writes |
| PfimDds.RowsApply | Common/PfimDds.cs:1288-1307 | the nested updates are the block's writes in order |
| PfimDds.RowWriteOrigin | Common/PfimDds.cs:1295-1303 | every write of a row puts a channel of one of its pixels |
| PfimDds.BlockWriteOrigin | Common/PfimDds.cs:1288-1307 | every write of a block puts a channel of one of its pixels with that pixel's value |
| PfimDds.RowWriteIn | Common/PfimDds.cs:1295-1303 | every channel of a row's pixel is written |
| PfimDds.BlockWriteIn | Common/PfimDds.cs:1288-1307 | every channel of the block is written |
| PfimDds.PosNext | Common/PfimDds.cs:1300-1302 | dataIndex++ on a uint |
| PfimDds.PosPixel | Common/PfimDds.cs:1295-1303 | the next pixel follows the last channel |
| PfimDds.PosRow | Common/PfimDds.cs:1306 | the row step reaches the next row |
| PfimDds.PosInjective | Common/PfimDds.cs:1288-1307 | without wrap-around, distinct channels of a block reach distinct bytes |
| PfimDds.PosPlain | Common/PfimDds.cs:1288-1307 | without wrap-around a position is dataIndex + i * depth * width + depth * j + c |
| PfimDds.BlockPixel | Common/PfimDds.cs:1288-1307 | a decoded block holds channel c of pixel (i, j) at that position |
| PfimDds.BlockElsewhere | Common/PfimDds.cs:1288-1307 | a byte that is no channel of the block keeps its value |
| PfimDds.NextRow | Common/PfimDds.cs:1306 | the row step in uint arithmetic |
| PfimDds.Expand5 | Common/PfimDds.cs:1253-1255 | a 5-bit channel fills the high bits, 0 maps to 0 and 31 to 255 |
| PfimDds.Expand6 | Common/PfimDds.cs:1254 | a 6-bit channel fills the high bits, 0 maps to 0 and 63 to 255 |
| PfimDds.UnpackLossless | Common/PfimDds.cs:1250-1262 | repacking an unpacked colour gives it back |
| PfimDds.Third | Common/PfimDds.cs:1268-1274 | (2x + y) / 3 lies between x and y |
| PfimDds.Half | Common/PfimDds.cs:1278-1280 | (x + y) / 2 lies between x and y |
| PfimDds.Palette4 | Common/PfimDds.cs:1266-1275 | four colours |
| PfimDds.Palette3 | Common/PfimDds.cs:1276-1285 | four colours |
| PfimDds.Dxt1Colors | Common/PfimDds.cs:1266-1285 | four colours |
| PfimDds.Dxt1Table | Common/PfimDds.cs:1250-1285 | the endpoints are the unpacked colours; four-colour mode iff color0 > color1, with the others between them, else their average and black |
| PfimDds.Code2 | Common/PfimDds.cs:1299 | a 2-bit code |
| PfimDds.Code3 | Common/PfimDds.cs:1471 | a 3-bit index |
| PfimDds.Lerp | Common/PfimDds.cs:170-175 | step i of n lies between the endpoints |
| PfimDds.LerpBounds | Common/PfimDds.cs:170-175 | the same before the cast |
| PfimDds.Gradient | Common/PfimDds.cs:160-180 | eight entries |
| PfimDds.GradientBetween | Common/PfimDds.cs:164-178 | the endpoints first, every interpolated entry between them, and 0 and 255 last in the 4-step table |
| PfimDds.GradientFalls | Common/PfimDds.cs:167-171 | with e0 > e1 the table falls step by step |
| PfimDds.LerpFalls | Common/PfimDds.cs:170 | each step is no higher than the one before |
| PfimDds.ExtractGradient | Common/PfimDds.cs:160-180 | the table of the two endpoint bytes and bIndex + 2; a missing byte throws after writing what was read |
| PfimDds.RgbPixels | Common/PfimDds.cs:1288-1303 | 16 pixels of three channels |
| PfimDds.RgbPixelAt | Common/PfimDds.cs:1294-1299 | pixel (i, j) is the colour that the code (row >> 2j) & 3 selects |
| PfimDds.Dxt1Pixels | Common/PfimDds.cs:1243-1303 | 16 pixels of three channels |
| PfimDds.RgbBlock | Common/PfimDds.cs:1288-1307 | the row loop writes the block's pixels |
| PfimDds.Dxt1Decode | Common/PfimDds.cs:1240-1311 | an 8-byte block into 3-byte pixels, row i at dataIndex + 3 * i * width; a short stream or buffer throws and writes nothing |
| PfimDds.Alpha4Nibbles | Common/PfimDds.cs:1391-1392 | both nibbles hold the 4-bit alpha, 0 stays 0 and 15 becomes 255 |
| PfimDds.Colors4 | Common/PfimDds.cs:1345-1378 | DXT3 always uses the four-colour table |
| PfimDds.Dxt3Rows | Common/PfimDds.cs:1380-1400 | 16 pixels of four channels |
| PfimDds.Dxt3Pixels | Common/PfimDds.cs:1333-1400 | 16 pixels of four channels |
| PfimDds.Dxt3PixelAt | Common/PfimDds.cs:1382-1397 | pixel (i, j)'s colour and 4-bit alpha |
| PfimDds.Dxt3Block | Common/PfimDds.cs:1380-1401 | the row loop writes the block and ends 16 bytes on |
| PfimDds.Dxt3Decode | Common/PfimDds.cs:1333-1402 | a 16-byte block into 4-byte pixels; a short stream or buffer throws and writes nothing |
| PfimDds.Dxt5Rows | Common/PfimDds.cs:1465-1479 | 16 pixels of four channels |
| PfimDds.Dxt5Pixels | Common/PfimDds.cs:1424-1479 | 16 pixels of four channels |
| PfimDds.Dxt5PixelAt | Common/PfimDds.cs:1467-1476 | pixel (i, j)'s colour and gradient alpha |
| PfimDds.Dxt5BlockRow | Common/PfimDds.cs:1467-1478 | one row of the loop |
| PfimDds.Dxt5Block | Common/PfimDds.cs:1465-1479 | the row loop writes the block |
| PfimDds.Dxt5Decode | Common/PfimDds.cs:1424-1481 | the alpha table from the endpoints, then a 16-byte block into 4-byte pixels; a short stream or buffer throws and writes nothing |
| PfimDds.Bc5Rows | Common/PfimDds.cs:143-155 | 16 pixels, channels 1 and 2 |
| PfimDds.Bc5Pixels | Common/PfimDds.cs:125-155 | 16 pixels, channels 1 and 2 |
| PfimDds.Bc5PixelAt | Common/PfimDds.cs:148-152 | pixel (i, j)'s green from the second gradient and red from the first |
| PfimDds.Bc5BlockRow | Common/PfimDds.cs:145-154 | one row of the loop, blue skipped |
| PfimDds.Bc5Block | Common/PfimDds.cs:143-155 | the row loop writes the block |
| PfimDds.Bc5Decode | Common/PfimDds.cs:125-158 | two gradients, then green and red of each 3-byte pixel; a short stream or buffer throws and writes no pixel |

## Left out

- File, stream and archive I/O: `Stream`, `File`, `Directory`, `ZipFile` and the inflate of Pak method 8 are parameters. The model reasons about the bytes they return.
- Logging (`Debug.WriteLine`, `Log`), `BBTree.DebugPrint`, `DirManager.DebugPrintFileListing`, `Dispose`/`Close` and `DirManager.OpenFile` are I/O and are not modelled.
- Floating point: coordinates, boxes, heights and the vegetation transform are reals. IEEE rounding is modelled only for header words that are compared (`Float32`).
- NavMeshPathing.AStarFrom: costs are integers in ticks of 1/10000. `new_cost < cost_so_far[next]` and `(int)((new_cost + heuristic) * 10)` are float expressions at CompiledNavMesh.cs:439 and 462-470. Their single-precision rounding is not modelled.
- NavMeshPathing.Heuristic: `Vector2.Distance` (a square root) is a parameter.
- NavMeshBuilder.Builder.Candidates: the height test `|z / 100f - Z100i / 100f| <= 0.8f` is two rounded float divisions in single precision. It is folded into the `passes` parameter together with the ray casts, not computed. The same applies to NavMeshBuilder.Builder.Toward and NavMeshBuilder.Builder.IsDirectionBlocked.
- NavMeshBuilder.Builder.GetBlockedDirections: ComputeDirectionFlags runs it over all floors with `Parallel.For`. That pass, the ScanFloor ray casts and the builder's pipeline around them are not modelled. The method is modelled for one floor.
- NavMeshBuilder.Builder.AddFloorPoint: the unchecked `(int)(z * 100)` cast is a requires (the truncated value fits in 32 bits). Its unspecified result out of range is not modelled.
- NavMeshRims.FixedRimsBlocked: proved only for symmetric edge maps. The effect of an asymmetric edge on a rim vertex's outward bit is not modelled.
- NavMeshBuilder: `determineDirectionFromWorld` uses `atan2`, and its direction is a parameter.
- NavMeshUtil.DecodeHeightEnds: stated for the wide decoding (DecodeHeightWide). For DecodeHeight as written it carries over while the z range spans at most 32768 (DecodeHeightAgrees); beyond that the product wraps (DecodeHeightWraps).
- NavMeshUtil.DecodeHeightMonotone: stated for the wide decoding, with the same carry-over as DecodeHeightEnds.
- NavMeshUtil.QuantisationError: stated for the wide decoding, with the same carry-over as DecodeHeightEnds.
- NavMeshUtil.EncodeHeight: `maxz - minz` is an unbounded integer. The C# int subtraction would wrap for a z range of 2^31 or more, which the compiler's arguments (0 <= z1 < z2, both ints) never reach.
- GeoSpace.GeoSpace.AddCollidableMeshToTree: the C# int wrap-around of `collisionStart + count` (GeoSpace.cs:17) is not modelled. The sum is an unbounded integer.
- BBTree: the test of a node with both a value and children (BBTree.cs:92) is not modelled. Nodes are either leaves or inner nodes.
- PakConstants: the signatures and the decode table are parameters, constrained only by the table covering every index that is used.
- PakUtil.Utf8Text: every byte of 0x80 or above becomes U+FFFD. .NET decodes valid multi-byte UTF-8 sequences.
- Ascii.Lower: lower-cases A-Z only. `ToLower`/`ToLowerInvariant` also lower non-ASCII letters, and `OrdinalIgnoreCase` (Ascii.EqualsIgnoreCase) also folds them.
- EncryptedHtml.Utf16Le: keeps an unpaired surrogate as its code unit. `Encoding.Unicode.GetString` replaces it with U+FFFD.
- EncryptedHtml.NameKey: walks the name's characters as Unicode scalars. C# walks UTF-16 code units, so a character outside the BMP gives two key terms there and one here (EncryptedHtml.Term).
- PakReader: a round trip of a whole encoded central directory list is not stated. Each entry's round trip and the bytes it consumes are.
- CompiledNavMesh: FindSubgraphUnderPoint, FindSubgraphUnderPointWithSnap, ForeachHeightAtXY, GetEdge, GetEstimatedFileSizeInBytes and the empty Validate are not modelled.
- NavMeshCompiler.Build: the dedupe in StoreBytesInMultiFloorSet sits after an unconditional `goto` and never runs. It is not modelled.
- GameInput: HandleInput drives the camera and UI and is not modelled. Only KeyStateWatcher.IsDown is.
- H32Loader: LoadIntoGeoSpace (float slope tests and triangle emission) is not modelled.
- H32Loader.ISqrt: the grid side is the exact integer square root of `Length / 3`. C# takes `(int)Math.Sqrt` of a double, which agrees while that count is below 2^52; rounding for longer streams is not modelled.
- DirManager: the constructors' LoadAll/LoadSubDir walks are modelled only through DirManager.DirManager.GenerateFileListing over a given listing.
- CgfLoader.RetimedPosition: only the position keyframe of CloneAtTime is modelled. The rotation quaternion and scale updates are float work.
- CgfLoader.Loader.IsNodeCollidable: the recursion over parent links is bounded by a fuel argument. In C#, a cyclic parent chain overflows the stack.
- CgfLoader: TraverseNodes and its matrix products are not modelled.
- WorldGeoFileBuilder: the vegetation rotation and scale transform is a parameter function.
- PfimDds: the image-level block loop of CompressedDds.DataDecode/InMemoryDecode, and Decompress, are not modelled. Each block decoder is modelled for one block at given stream and data offsets.
- PfimDds: PfimUtil.Fill/Translate are modelled only as their result on a memory stream (PfimHeader.Filled).
- UI code in Form1 (other than ConvertLineEndings and GetPreviewTypeFromFilename), the viewers, the content loaders and the renderers are outside the core.

## Findings

| source | as written | input that shows it | evidently intended | confidence | as-written member | corrected member |
|---|---|---|---|---|---|---|
| Common/PfimDds.cs:789-797 | DX10 BC3 textures go to the DXT3 (BC2) decoder, and BC5 textures to the DXT5 (BC3) decoder | DX10 header with dxgiFormat 77 (BC3_UNORM) or 83 (BC5_UNORM) | each block format goes to its own decoder: BC3 to Dxt5Dds, BC5 to Bc5Dds | high; not executed | PfimHeader.NewDecoderMisreadsBc3, PfimHeader.NewDecoderMisreadsBc5 | PfimHeader.MatchingDecoder |
| Common/Navigation/CompiledNavMesh.cs:192-194 | the "bad z step" test reads `step`, so maxZStep is never range-checked | a saved mesh whose maxZStep is 100.0f loads | reject a maxZStep outside 0..16 | high; not executed | CompiledNavMesh.MaxZStepNotChecked | CompiledNavMesh.DecodeHeaderChecked |
| Common/Navigation/CompiledNavMesh.cs:440, 513-531 | with start == goal, the start's recorded predecessor default(NodeId) has block index 0, so the walk steps to it and the dictionary lookup throws KeyNotFound | findPath(s, s, e) for any s other than default(NodeId) | a path from a node to itself is [exactEnd] | medium; not executed | NavMeshPathing.FindPath | NavMeshPathing.FindPathCorrected |
| Common/Navigation/NavMeshUtil.cs:131 | `encz * (maxz - minz)` is an int product, which wraps once the z range exceeds 32768 | minz 0, maxz 40000, encz 65535: the product 2621400000 wraps and the height decodes below zero | the product taken wide, so that 65535 decodes as maxz | low (meshes with a z range above 32768); not executed | NavMeshUtil.DecodeHeightWraps | NavMeshUtil.DecodeHeightEnds |
| Common/Navigation/NavMeshBuilder.cs:401-421 | the walk checks totalVisited only for start vertices, so with a one-way edge a later subgraph contains vertices of an earlier one | edges {A1 -> B1, A2 -> B1, B1 -> A1} with A1 walked first | pairwise-disjoint subgraphs | low (needs one-way edges from the first-floor rule); not executed | NavMeshSubgraphs.OverlapWithoutSymmetry | NavMeshSubgraphs.ComputeDisjointSubgraphs |
