/// The text-preview helpers of the client viewer's main form.
module Form1 {
  import Ascii
  import Paths

  /** Environment.NewLine of the Windows Forms viewer. */
  const NewLine: string := "\r\n"

  predicate IsBreak(c: char) { c == '\r' || c == '\n' }

  /** The text starts with a CR LF pair. */
  predicate StartsWithPair(text: string)
  {
    |text| >= 2 && text[0] == '\r' && text[1] == '\n'
  }

  /** How many characters the first step of the conversion consumes. */
  function Skip(text: string): (n: nat)
    requires text != []
    ensures 1 <= n <= |text|
  {
    if StartsWithPair(text) then 2 else 1
  }

  /** What the first step of the conversion emits. */
  function Piece(text: string): string
    requires text != []
  {
    if IsBreak(text[0]) then NewLine else [text[0]]
  }

  /** The text with each CR LF pair, each lone CR and each lone LF replaced by one NewLine. */
  function Converted(text: string): (r: string)
    decreases |text|
  {
    if text == [] then [] else Piece(text) + Converted(text[Skip(text)..])
  }

  /** ConvertLineEndings: one pass over the text, skipping the LF of each CR LF pair. */
  method ConvertLineEndings(text: string) returns (r: string)
    ensures r == Converted(text)
  {
    var sb := [];
    var i := 0;
    while i < |text|
      invariant 0 <= i <= |text|
      invariant sb + Converted(text[i..]) == Converted(text)
    {
      ConvertedAt(text, i);
      var rest := Converted(text[i + Skip(text[i..])..]);
      assert sb + (Piece(text[i..]) + rest) == (sb + Piece(text[i..])) + rest;
      if i + 1 < |text| && text[i] == '\r' && text[i + 1] == '\n' {
        assert StartsWithPair(text[i..]);
        sb := sb + NewLine;
        i := i + 2;
        continue;
      } else if text[i] == '\n' || text[i] == '\r' {
        sb := sb + NewLine;
        i := i + 1;
        continue;
      }
      sb := sb + [text[i]];
      i := i + 1;
    }
    assert text[i..] == [];
    return sb;
  }

  /** The conversion of the text from i on: the piece at i, then the conversion after it. */
  lemma ConvertedAt(text: string, i: nat)
    requires i < |text|
    ensures Converted(text[i..]) == Piece(text[i..]) + Converted(text[i + Skip(text[i..])..])
  {
    assert text[i..][Skip(text[i..])..] == text[i + Skip(text[i..])..];
  }

  /** Text without CR or LF is returned unchanged. */
  lemma {:induction false} NoBreaksUnchanged(text: string)
    requires forall k :: 0 <= k < |text| ==> !IsBreak(text[k])
    ensures Converted(text) == text
    decreases |text|
  {
    if text != [] {
      NoBreaksUnchanged(text[1..]);
    }
  }

  /** Text that does not end in a CR starts the same conversion step whatever follows it. */
  lemma FirstStepOfAppend(a: string, b: string)
    requires a != [] && a[|a| - 1] != '\r'
    ensures Skip(a + b) == Skip(a) && Piece(a + b) == Piece(a)
    ensures (a + b)[Skip(a)..] == a[Skip(a)..] + b
  {
    var ab := a + b;
    assert ab[0] == a[0];
    if |a| == 1 {
      assert a[0] != '\r';
    } else {
      assert ab[1] == a[1];
    }
  }

  /** Conversion works piece by piece, unless the first piece ends in a CR that could pair with an LF. */
  lemma {:induction false} ConvertedAppend(a: string, b: string)
    requires a == [] || a[|a| - 1] != '\r'
    ensures Converted(a + b) == Converted(a) + Converted(b)
    decreases |a|
  {
    if a == [] {
      assert a + b == b;
    } else {
      var n := Skip(a);
      var p := Piece(a);
      FirstStepOfAppend(a, b);
      assert Converted(a + b) == p + Converted(a[n..] + b);
      ConvertedAppend(a[n..], b);
      assert p + (Converted(a[n..]) + Converted(b)) == (p + Converted(a[n..])) + Converted(b);
    }
  }

  /** A break followed by after converts to one NewLine, then after converted. */
  lemma BreakThen(brk: string, after: string)
    requires brk == "\r\n" || (brk == "\r" && (after == [] || after[0] != '\n')) || brk == "\n"
    ensures Converted(brk + after) == NewLine + Converted(after)
  {
    var t := brk + after;
    assert t[0] == brk[0] && IsBreak(t[0]);
    assert StartsWithPair(t) <==> brk == "\r\n";
    assert t[Skip(t)..] == after;
  }

  /** A break after text not ending in CR becomes exactly one NewLine. */
  lemma BreakIsOneNewLine(before: string, brk: string, after: string)
    requires before == [] || before[|before| - 1] != '\r'
    requires brk != [] && Converted(brk + after) == NewLine + Converted(after)
    ensures Converted(before + brk + after) == Converted(before) + NewLine + Converted(after)
  {
    ConvertedAppend(before, brk + after);
    assert before + brk + after == before + (brk + after);
    assert Converted(before) + (NewLine + Converted(after)) == Converted(before) + NewLine + Converted(after);
  }

  /** A CR LF pair becomes exactly one NewLine. */
  lemma PairIsOneNewLine(before: string, after: string)
    requires before == [] || before[|before| - 1] != '\r'
    ensures Converted(before + "\r\n" + after) == Converted(before) + NewLine + Converted(after)
  {
    BreakThen("\r\n", after);
    BreakIsOneNewLine(before, "\r\n", after);
  }

  /** A CR not followed by LF becomes exactly one NewLine. */
  lemma LoneCrIsOneNewLine(before: string, after: string)
    requires before == [] || before[|before| - 1] != '\r'
    requires after == [] || after[0] != '\n'
    ensures Converted(before + "\r" + after) == Converted(before) + NewLine + Converted(after)
  {
    BreakThen("\r", after);
    BreakIsOneNewLine(before, "\r", after);
  }

  /** An LF not preceded by CR becomes exactly one NewLine. */
  lemma LoneLfIsOneNewLine(before: string, after: string)
    requires before == [] || before[|before| - 1] != '\r'
    ensures Converted(before + "\n" + after) == Converted(before) + NewLine + Converted(after)
  {
    BreakThen("\n", after);
    BreakIsOneNewLine(before, "\n", after);
  }

  /** Converting converted text again changes nothing: every break is already a NewLine. */
  lemma {:induction false} ConvertedIdempotent(text: string)
    ensures Converted(Converted(text)) == Converted(text)
    decreases |text|
  {
    if text == [] {
    } else {
      var rest := text[Skip(text)..];
      var piece := Piece(text);
      ConvertedAppend(piece, Converted(rest));
      ConvertedIdempotent(rest);
      assert Converted(piece) == piece by {
        if IsBreak(text[0]) {
          assert StartsWithPair(NewLine) && NewLine[2..] == [];
        } else {
          assert piece[1..] == [];
        }
      }
    }
  }

  // ---------------------------------------------------------------------------
  // Preview classification

  datatype PreviewType = None | Pak | Text | Html | Xml | Image | Cgf

  const TextExtensions: seq<string> :=
    [".txt", ".log", ".ini", ".lua", ".toc", ".ext", ".vcxproj", ".filters", ".cmd", ".bat", ".cal", ".csv", ".nfo"]
  const HtmlExtensions: seq<string> := [".html", ".htm"]
  const XmlExtensions: seq<string> := [".xml"]
  const ImageExtensions: seq<string> :=
    [".jpg", ".png", ".bmp", ".tmb", ".ico", ".dds", ".gif", ".tif", ".tga", ".pcx"]
  const CgfExtensions: seq<string> := [".cgf", ".cga"]

  /** `Contains(ext, StringComparer.InvariantCultureIgnoreCase)` on one of the extension lists. */
  predicate Listed(ext: string, list: seq<string>)
  {
    exists k :: 0 <= k < |list| && Ascii.EqualsIgnoreCase(ext, list[k])
  }

  /** Every extension of the list is written in lower case. */
  predicate AllLower(list: seq<string>)
  {
    forall k :: 0 <= k < |list| ==> Ascii.LowerString(list[k]) == list[k]
  }

  /** On a list written in lower case, Contains ignoring case is membership of the lowered extension. */
  lemma ListedIff(ext: string, list: seq<string>)
    requires AllLower(list)
    ensures Listed(ext, list) <==> Ascii.LowerString(ext) in list
  {
    if Ascii.LowerString(ext) in list {
      var k :| 0 <= k < |list| && list[k] == Ascii.LowerString(ext);
      assert Ascii.EqualsIgnoreCase(ext, list[k]);
    }
  }

  /** The viewer's extension lists are all written in lower case. */
  lemma ListsLower()
    ensures AllLower(ListOf(Pak)) && AllLower(TextExtensions) && AllLower(HtmlExtensions)
    ensures AllLower(XmlExtensions) && AllLower(ImageExtensions) && AllLower(CgfExtensions)
  {
    TextLower();
    ImageLower();
    assert AllLower(ListOf(Pak)) && AllLower(HtmlExtensions) && AllLower(XmlExtensions);
  }

  lemma TextLower()
    ensures AllLower(TextExtensions)
  {
  }

  lemma ImageLower()
    ensures AllLower(ImageExtensions)
  {
  }

  /**
   * GetPreviewTypeFromFilename: the first list, in the order Pak, Text, Html, Xml, Image, Cgf,
   * holding the extension ignoring case. The lists are written in lower case (ListsLower), so
   * each test is the lowered extension's membership (ListedIff).
   */
  function GetPreviewTypeFromFilename(filename: string): (t: PreviewType)
  {
    PreviewTypeOfKey(Ascii.LowerString(Paths.Extension(filename)))
  }

  /** The preview type of an extension already in lower case. */
  function PreviewTypeOfKey(key: string): PreviewType
  {
    if key == ".pak" then Pak
    else if key in TextExtensions then Text
    else if key in HtmlExtensions then Html
    else if key in XmlExtensions then Xml
    else if key in ImageExtensions then Image
    else if key in CgfExtensions then Cgf
    else None
  }

  /** The extension lists of the preview types, in their order of priority. */
  function ListOf(t: PreviewType): seq<string>
  {
    match t
    case None => []
    case Pak => [".pak"]
    case Text => TextExtensions
    case Html => HtmlExtensions
    case Xml => XmlExtensions
    case Image => ImageExtensions
    case Cgf => CgfExtensions
  }

  function Rank(t: PreviewType): nat
  {
    match t
    case Pak => 0
    case Text => 1
    case Html => 2
    case Xml => 3
    case Image => 4
    case Cgf => 5
    case None => 6
  }

  /**
   * The classification is the list of highest priority that holds the file's extension,
   * ignoring case; None exactly when no list holds it.
   */
  lemma PreviewTypeByPriority(filename: string, u: PreviewType)
    ensures var t := GetPreviewTypeFromFilename(filename);
            (t != None ==> Listed(Paths.Extension(filename), ListOf(t)))
            && (u != None && Listed(Paths.Extension(filename), ListOf(u)) ==> t != None && Rank(t) <= Rank(u))
  {
    var ext := Paths.Extension(filename);
    ListsLower();
    ListedIff(ext, ListOf(GetPreviewTypeFromFilename(filename)));
    ListedIff(ext, ListOf(u));
  }

  /** Extensions that differ only in case give the same preview type. */
  lemma PreviewTypeIgnoresCase(a: string, b: string)
    requires Ascii.EqualsIgnoreCase(Paths.Extension(a), Paths.Extension(b))
    ensures GetPreviewTypeFromFilename(a) == GetPreviewTypeFromFilename(b)
  {
    var key := Ascii.LowerString(Paths.Extension(a));
    assert GetPreviewTypeFromFilename(a) == PreviewTypeOfKey(key) == GetPreviewTypeFromFilename(b);
  }

  /**
   * A file without an extension, including one whose only dot is in a directory name,
   * previews as None.
   */
  lemma NoExtensionIsNone(filename: string)
    requires Paths.Extension(filename) == []
    ensures GetPreviewTypeFromFilename(filename) == None
  {
    assert Ascii.LowerString([]) == [];
  }
}
