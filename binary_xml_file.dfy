/// BinaryXmlFile.cs: a binary XML document, a marker byte 128, the string table and the
/// root node.
module BinaryXmlFile {
  import opened Outcome
  import opened Bytes
  import opened BinaryXmlStringTable
  import opened BinaryXmlNode

  /** The message Read throws when the first byte is not the marker. */
  const NotBinaryXml := "not a binary XML file"

  /** The byte every binary XML file starts with. */
  const Marker := 128

  /**
   * The document at p and the position after it, or the exception Read throws: the marker,
   * then the string table, then the root node, whose offsets are looked up in that table.
   */
  function DocumentAt(d: seq<byte>, p: nat): (r: Result<(Node, nat)>)
    requires p <= |d|
    ensures p == |d| ==> r == Err(EndOfStream)
    ensures p < |d| && d[p] != Marker ==> r == Err(NotBinaryXml)
    ensures r.Ok? ==> p < |d| && d[p] == Marker && Contents(d, p + 1).Ok?
    ensures r.Ok? ==> var (_, start, end) := Contents(d, p + 1).value;
                      NodeAt(d, end, Some(d[start..end])) == Ok(r.value)
    ensures r.Ok? ==> p < r.value.1 <= |d|
  {
    if p == |d| then Err(EndOfStream)
    else if d[p] != Marker then Err(NotBinaryXml)
    else
      var (_, start, end) :- Contents(d, p + 1);
      NodeAt(d, end, Some(d[start..end]))
  }

  /**
   * What Root refers to: nothing before the first Read, a fresh node whose own Read threw
   * part way (its partly read fields are not modelled), or a node read in full.
   */
  datatype Root = NoRoot | Unfinished | Whole(node: Node)

  class File {
    var root: Root

    constructor ()
      ensures root == NoRoot
    {
      root := NoRoot;
    }

    /**
     * Read: checks the marker and reads the table into a fresh StringTable; then Root is set
     * to a fresh node before that node is read, so a failure of the node read leaves Root
     * unfinished, while a failure before it leaves Root as it was.
     */
    method Read(d: seq<byte>, p: nat) returns (r: Result<()>, q: nat)
      requires p <= |d|
      modifies this
      ensures r.Ok? <==> DocumentAt(d, p).Ok?
      ensures r.Err? ==> r.error == DocumentAt(d, p).error
      ensures r.Err? && (p == |d| || d[p] != Marker || Contents(d, p + 1).Err?) ==> root == old(root)
      ensures r.Err? && p < |d| && d[p] == Marker && Contents(d, p + 1).Ok? ==> root == Unfinished
      ensures r.Ok? ==> root == Whole(DocumentAt(d, p).value.0) && q == DocumentAt(d, p).value.1
    {
      if p >= |d| {
        return Err(EndOfStream), p;
      }
      if d[p] != Marker {
        return Err(NotBinaryXml), p + 1;
      }
      var table := new StringTable();
      var loaded, q1 := table.Read(d, p + 1);
      if loaded.Err? {
        return Err(loaded.error), q1;
      }
      root := Unfinished;
      var node, q2 := BinaryXmlNode.Read(d, q1, table);
      if node.Err? {
        return Err(node.error), q2;
      }
      root := Whole(node.value);
      r, q := Ok(()), q2;
    }
  }
}
