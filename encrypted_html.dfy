/// EncryptedHtml.cs: HTML files stored XOR-ed with a keystream derived from the file name.
/// The C# `int` keys wrap around, so they are kept as 32-bit words.
module EncryptedHtml {
  import opened Outcome
  import opened Bytes
  import opened ByteHelpers

  const InvalidHeader := "invalid header"
  const UnexpectedBom := "unexpected BOM"

  /** The directory and volume separators Path.GetFileName splits at on Windows. */
  predicate IsSeparator(c: char) { c == '\\' || c == '/' || c == ':' }

  /** Path.GetFileName: what follows the last separator. */
  function FileName(path: string): (r: string)
    ensures |r| <= |path| && r == path[|path| - |r|..]
    ensures forall i :: 0 <= i < |r| ==> !IsSeparator(r[i])
    ensures |r| < |path| ==> IsSeparator(path[|path| - |r| - 1])
  {
    if path == [] || IsSeparator(path[|path| - 1]) then []
    else FileName(path[..|path| - 1]) + [path[|path| - 1]]
  }

  /** The name up to its last '.', or the whole name when it has none. */
  function DropExtension(name: string): (r: string)
    ensures |r| <= |name| && r == name[..|r|]
    ensures r == name <==> '.' !in name
    ensures r != name ==> name[|r|] == '.' && '.' !in name[|r| + 1..]
  {
    if name == [] then []
    else if name[|name| - 1] == '.' then name[..|name| - 1]
    else
      var r := DropExtension(name[..|name| - 1]);
      if r == name[..|name| - 1] then name
      else
        assert name[|r| + 1..] == name[..|name| - 1][|r| + 1..] + [name[|name| - 1]];
        r
  }

  /** Path.GetFileNameWithoutExtension. */
  function BaseName(path: string): string
  {
    DropExtension(FileName(path))
  }

  /** Bitwise exclusive or of two naturals, as C#'s `^` on non-negative values. */
  function Xor(a: nat, b: nat): (r: nat)
    decreases a + b
  {
    if a == 0 && b == 0 then 0
    else (a % 2 + b % 2) % 2 + 2 * Xor(a / 2, b / 2)
  }

  function TwoTo(k: nat): (p: nat)
    ensures p >= 1
  {
    if k == 0 then 1 else 2 * TwoTo(k - 1)
  }

  /** Exclusive or keeps k-bit values within k bits. */
  lemma {:induction false} XorBelow(a: nat, b: nat, k: nat)
    requires a < TwoTo(k) && b < TwoTo(k)
    ensures Xor(a, b) < TwoTo(k)
    decreases k
  {
    if k > 0 && !(a == 0 && b == 0) {
      XorBelow(a / 2, b / 2, k - 1);
    }
  }

  /** The low bit of `a ^ b` and the exclusive or of the remaining bits. */
  lemma XorSplit(a: nat, b: nat)
    ensures Xor(a, b) % 2 == (a % 2 + b % 2) % 2
    ensures Xor(a, b) / 2 == Xor(a / 2, b / 2)
  {
  }

  lemma ParityTwice(a: nat, k: nat)
    ensures ((a % 2 + k % 2) % 2 + k % 2) % 2 == a % 2
  {
  }

  lemma Recompose(y: nat, a: nat)
    requires y / 2 == a / 2 && y % 2 == a % 2
    ensures y == a
  {
  }

  /** Exclusive or with the same key twice is the identity. */
  lemma {:induction false} XorTwice(a: nat, k: nat)
    ensures Xor(Xor(a, k), k) == a
    decreases a + k
  {
    if !(a == 0 && k == 0) {
      var x := Xor(a, k);
      XorSplit(a, k);
      XorSplit(x, k);
      XorTwice(a / 2, k / 2);
      ParityTwice(a, k);
      Recompose(Xor(x, k), a);
    }
  }

  const Word := 0x1_0000_0000

  lemma WordBits()
    ensures TwoTo(32) == Word && TwoTo(8) == 0x100
  {
    assert TwoTo(8) == 0x100;
    assert TwoTo(16) == 0x1_0000 by {
      assert TwoTo(16) == TwoTo(8) * 0x100 by { Shift(8, 8); }
    }
    Shift(16, 16);
  }

  lemma {:induction false} Shift(j: nat, k: nat)
    ensures TwoTo(j + k) == TwoTo(j) * TwoTo(k)
    decreases k
  {
    if k > 0 {
      Shift(j, k - 1);
    }
  }

  /** `b[i] ^= (byte)magic`. */
  function XorKey(b: byte, key: byte): (r: byte)
  {
    WordBits();
    XorBelow(b, key, 8);
    Xor(b, key)
  }

  /** A C# `int` as its 32-bit pattern: the additions below wrap around. */
  type word = x: nat | x < 0x1_0000_0000

  /** `magic ^= magic2` on 32-bit patterns. */
  function XorWord(a: word, b: word): (r: word)
  {
    WordBits();
    XorBelow(a, b, 32);
    Xor(a, b)
  }

  /**
   * The term of character i: `(filenameWithoutExt[i] & 0xF) + i`. The name is a sequence of
   * Unicode scalar values, one per UTF-16 code unit of the C# string for names inside the
   * Basic Multilingual Plane; a name with a character outside it is not modelled.
   */
  function Term(name: string, i: nat): word
    requires i < |name|
  {
    (name[i] as int % 16 + i) % Word
  }

  /** The two key words `magic` and `magic2`. */
  datatype Magic = Magic(magic: word, magic2: word)

  /** (magic, magic2) after the first n characters: a wrapping sum and an exclusive or of the terms. */
  function Seed(name: string, n: nat): Magic
    requires n <= |name|
  {
    if n == 0 then Magic(0, 0)
    else
      var s := Seed(name, n - 1);
      Magic((s.magic + Term(name, n - 1)) % Word, XorWord(s.magic2, Term(name, n - 1)))
  }

  /** (magic, magic2) after j steps of the byte loop from the seed s. */
  function State(s: Magic, j: nat): Magic
  {
    if j == 0 then s
    else
      var t := State(s, j - 1);
      Magic(XorWord((t.magic + 0x1D) % Word, t.magic2), (t.magic2 + 3) % Word)
  }

  /** The byte b[j] is XOR-ed with: `(byte)magic` right after step j. */
  function Key(s: Magic, j: nat): byte
  {
    State(s, j + 1).magic % 0x100
  }

  /** The buffer with every byte XOR-ed with its key. */
  function Apply(b: seq<byte>, s: Magic): (r: seq<byte>)
    ensures |r| == |b|
    ensures forall j :: 0 <= j < |b| ==> r[j] == XorKey(b[j], Key(s, j))
  {
    seq(|b|, j requires 0 <= j < |b| => XorKey(b[j], Key(s, j)))
  }

  /** The keystream depends on the name and the index only, so applying it twice restores the buffer. */
  lemma ApplyTwice(b: seq<byte>, s: Magic)
    ensures Apply(Apply(b, s), s) == b
  {
    forall j | 0 <= j < |b| ensures Apply(Apply(b, s), s)[j] == b[j] {
      XorTwice(b[j], Key(s, j));
    }
  }

  /** The key of a file name. */
  function KeyOf(originalFilename: string): Magic
  {
    var name := BaseName(originalFilename);
    Seed(name, |name|)
  }

  /**
   * DecodeInternal on the stream's bytes: the header byte 0x81, then the rest with its
   * first byte zeroed and the keystream applied.
   */
  function Internal(originalFilename: string, input: seq<byte>): (r: Result<seq<byte>>)
    ensures r.Ok? <==> 2 <= |input| && input[0] == 0x81
    ensures r.Err? ==> r.error == (if input == [] || input[0] != 0x81 then InvalidHeader else IndexOutOfRange)
    ensures r.Ok? ==> |r.value| == |input| - 1
  {
    if input == [] || input[0] != 0x81 then Err(InvalidHeader)
    else if |input| == 1 then Err(IndexOutOfRange)
    else Ok(Apply(input[1..][0 := 0], KeyOf(originalFilename)))
  }

  /** The first decoded byte is always the first key byte, whatever was stored there. */
  lemma FirstByteIsKey(originalFilename: string, input: seq<byte>)
    requires Internal(originalFilename, input).Ok?
    ensures Internal(originalFilename, input).value[0] == Key(KeyOf(originalFilename), 0)
  {
    var b := input[1..][0 := 0];
    XorZero(Key(KeyOf(originalFilename), 0));
    assert Apply(b, KeyOf(originalFilename))[0] == XorKey(0, Key(KeyOf(originalFilename), 0));
  }

  lemma {:induction false} XorZero(k: nat)
    ensures Xor(0, k) == k
    decreases k
  {
    if k != 0 {
      XorZero(k / 2);
    }
  }

  /** Encoding with the same keystream is undone: a plain text whose first byte is the first key byte comes back. */
  lemma RoundTrip(originalFilename: string, plain: seq<byte>)
    requires |plain| >= 1 && plain[0] == Key(KeyOf(originalFilename), 0)
    ensures Internal(originalFilename, [0x81] + Apply(plain, KeyOf(originalFilename))) == Ok(plain)
  {
    var s := KeyOf(originalFilename);
    var input := [0x81] + Apply(plain, s);
    var b := input[1..][0 := 0];
    ApplyTwice(plain, s);
    assert input[1..] == Apply(plain, s);
    forall j | 0 <= j < |b| ensures Apply(b, s)[j] == plain[j] {
      if j == 0 {
        XorZero(Key(s, 0));
      } else {
        assert b[j] == Apply(plain, s)[j];
      }
    }
    assert Apply(b, s) == plain;
    assert Internal(originalFilename, input) == Ok(Apply(b, s));
  }

  /** DecodeInternal: the header check, then the key loop and the XOR loop below. */
  method DecodeInternal(originalFilename: string, input: seq<byte>) returns (r: Result<seq<byte>>)
    ensures r == Internal(originalFilename, input)
  {
    if input == [] || input[0] != 0x81 {
      return Err(InvalidHeader);
    }
    var b := new byte[|input| - 1](i requires 0 <= i < |input| - 1 => input[i + 1]);
    if b.Length == 0 {
      return Err(IndexOutOfRange);
    }
    b[0] := 0;
    assert b[..] == input[1..][0 := 0];
    var magic, magic2 := NameKey(BaseName(originalFilename));
    XorInPlace(b, magic, magic2);
    r := Ok(b[..]);
  }

  /** The loop over the name without extension that sums and XORs the character terms. */
  method NameKey(name: string) returns (magic: word, magic2: word)
    ensures Magic(magic, magic2) == Seed(name, |name|)
  {
    magic, magic2 := 0, 0;
    var i := 0;
    while i < |name|
      invariant 0 <= i <= |name|
      invariant Magic(magic, magic2) == Seed(name, i)
    {
      var tmp := (name[i] as int % 16 + i) % Word;
      magic := (magic + tmp) % Word;
      magic2 := XorWord(magic2, tmp);
      i := i + 1;
    }
  }

  /** The loop that steps the key and XORs each byte of b in place with its low byte. */
  method XorInPlace(b: array<byte>, magic0: word, magic20: word)
    modifies b
    ensures b[..] == Apply(old(b[..]), Magic(magic0, magic20))
  {
    ghost var start := b[..];
    ghost var s := Magic(magic0, magic20);
    var magic: word, magic2: word := magic0, magic20;
    var i := 0;
    while i < b.Length
      invariant 0 <= i <= b.Length
      invariant Magic(magic, magic2) == State(s, i)
      invariant b[..i] == Apply(start, s)[..i]
      invariant b[i..] == start[i..]
    {
      magic := (magic + 0x1D) % Word;
      magic := XorWord(magic, magic2);
      magic2 := (magic2 + 3) % Word;
      b[i] := XorKey(b[i], magic % 0x100);
      i := i + 1;
    }
  }

  /** Decode: the decoded buffer without its first byte. */
  function Decoded(originalFilename: string, input: seq<byte>): (r: Result<seq<byte>>)
    ensures r.Ok? <==> Internal(originalFilename, input).Ok?
    ensures r.Ok? ==> |r.value| == |input| - 2
    ensures r.Ok? ==> r.value == Internal(originalFilename, input).value[1..]
  {
    var b :- Internal(originalFilename, input);
    Ok(b[1..])
  }

  method Decode(originalFilename: string, input: seq<byte>) returns (r: Result<seq<byte>>)
    ensures r == Decoded(originalFilename, input)
  {
    var b := DecodeInternal(originalFilename, input);
    if b.Err? {
      return Err(b.error);
    }
    r := Ok(b.value[1..]);
  }

  /**
   * Encoding.Unicode.GetString: little-endian code units from consecutive byte pairs; an odd
   * byte left at the end becomes the replacement character U+FFFD. Unpaired surrogates are
   * kept as they are, where .NET would replace each with U+FFFD.
   */
  function Utf16Le(d: seq<byte>): (s: Units)
    ensures |s| == (|d| + 1) / 2
    ensures forall k :: 0 <= k < |d| / 2 ==> s[k] == U16(d, 2 * k)
    ensures |d| % 2 == 1 ==> s[|s| - 1] == 0xFFFD
  {
    if |d| == 0 then []
    else if |d| == 1 then [0xFFFD]
    else
      var rest := Utf16Le(d[2..]);
      assert forall k :: 0 <= k < |d[2..]| / 2 ==> U16(d[2..], 2 * k) == U16(d, 2 * (k + 1));
      [U16(d, 0)] + rest
  }

  /** DecodeToString: the text after the byte order mark FF FE at decoded positions 1 and 2. */
  function DecodedText(originalFilename: string, input: seq<byte>): (r: Result<Units>)
    ensures r.Ok? ==> Internal(originalFilename, input).Ok? && var b := Internal(originalFilename, input).value;
                      3 <= |b| && b[1] == 0xFF && b[2] == 0xFE && r.value == Utf16Le(b[3..])
    ensures r.Err? && Internal(originalFilename, input).Ok? ==> r.error == UnexpectedBom || r.error == IndexOutOfRange
  {
    var b :- Internal(originalFilename, input);
    if |b| < 2 then Err(IndexOutOfRange)
    else if b[1] != 0xFF then Err(UnexpectedBom)
    else if |b| < 3 then Err(IndexOutOfRange)
    else if b[2] != 0xFE then Err(UnexpectedBom)
    else Ok(Utf16Le(b[3..]))
  }

  method DecodeToString(originalFilename: string, input: seq<byte>) returns (r: Result<Units>)
    ensures r == DecodedText(originalFilename, input)
  {
    var b := DecodeInternal(originalFilename, input);
    if b.Err? {
      return Err(b.error);
    }
    if |b.value| < 2 {
      return Err(IndexOutOfRange);
    }
    if b.value[1] != 0xFF || (|b.value| >= 3 && b.value[2] != 0xFE) {
      return Err(UnexpectedBom);
    }
    if |b.value| < 3 {
      return Err(IndexOutOfRange);
    }
    r := Ok(Utf16Le(b.value[3..]));
  }
}
