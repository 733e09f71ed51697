/// Fixed-size records of little-endian integer fields, as a run of BinaryReader.ReadUInt16 /
/// ReadUInt32 calls reads them and a run of BinaryWriter.Write calls writes them. A record
/// is described by the widths of its fields, in order.
module Layout {
  import opened Outcome
  import opened Bytes
  import opened Cursor

  datatype Width = W8 | W16 | W32

  function WidthBytes(w: Width): nat
  {
    match w
    case W8 => 1
    case W16 => 2
    case W32 => 4
  }

  /** One more than the largest value a field of this width holds. */
  function Bound(w: Width): nat
  {
    match w
    case W8 => 0x100
    case W16 => 0x1_0000
    case W32 => 0x1_0000_0000
  }

  /** The bytes a record of these widths takes. */
  function Size(ws: seq<Width>): nat
    decreases |ws|
  {
    if ws == [] then 0 else Size(ws[..|ws| - 1]) + WidthBytes(ws[|ws| - 1])
  }

  /** One value per field, each within its width. */
  predicate Fits(ws: seq<Width>, vs: seq<nat>)
  {
    |vs| == |ws| && forall k :: 0 <= k < |ws| ==> vs[k] < Bound(ws[k])
  }

  /** A field read at position p. */
  function Value(d: seq<byte>, p: nat, w: Width): (v: nat)
    requires p + WidthBytes(w) <= |d|
    ensures v < Bound(w)
  {
    match w
    case W8 => d[p]
    case W16 => U16(d, p)
    case W32 => U32(d, p)
  }

  /** A field written. */
  function Field(w: Width, v: nat): (s: seq<byte>)
    ensures |s| == WidthBytes(w)
  {
    if v >= Bound(w) then seq(WidthBytes(w), _ => 0)
    else
      match w
      case W8 => [v]
      case W16 => LE16(v)
      case W32 => LE32(v)
  }

  /** The record's fields read one after another from position p. */
  function Read(d: seq<byte>, p: nat, ws: seq<Width>): (vs: seq<nat>)
    requires p + Size(ws) <= |d|
    ensures |vs| == |ws|
    decreases |ws|
  {
    if ws == [] then []
    else
      var front := ws[..|ws| - 1];
      Read(d, p, front) + [Value(d, p + Size(front), ws[|ws| - 1])]
  }

  /** The record's fields written one after another. */
  function Write(ws: seq<Width>, vs: seq<nat>): (s: seq<byte>)
    requires |vs| == |ws|
    ensures |s| == Size(ws)
    decreases |ws|
  {
    if ws == [] then []
    else
      var n := |ws| - 1;
      Write(ws[..n], vs[..n]) + Field(ws[n], vs[n])
  }

  /** A field written between any two byte strings reads back from its position. */
  lemma ValueAt(pre: seq<byte>, w: Width, v: nat, rest: seq<byte>)
    requires v < Bound(w)
    ensures |pre| + WidthBytes(w) <= |pre + Field(w, v) + rest|
    ensures Value(pre + Field(w, v) + rest, |pre|, w) == v
  {
    match w
    case W8 =>
      assert (pre + [v] + rest)[|pre|] == v;
    case W16 =>
      U16At(pre, v, rest);
    case W32 =>
      U32At(pre, v, rest);
  }

  lemma FieldOfValue(d: seq<byte>, p: nat, w: Width)
    requires p + WidthBytes(w) <= |d|
    ensures Field(w, Value(d, p, w)) == d[p..p + WidthBytes(w)]
  {
    match w
    case W8 =>
    case W16 =>
      LE16Decoded(d, p);
    case W32 =>
      LE32Decoded(d, p);
  }

  lemma SplitLast(vs: seq<nat>)
    requires vs != []
    ensures vs == vs[..|vs| - 1] + [vs[|vs| - 1]]
  {
  }

  /** Where two byte strings stand one after the other, each stands at its own position. */
  lemma StandsSplit(d: seq<byte>, p: nat, a: seq<byte>, b: seq<byte>)
    requires StandsAt(d, p, a + b)
    ensures StandsAt(d, p, a) && StandsAt(d, p + |a|, b)
  {
    StandsPart(d, p, a + b, 0, |a|);
    StandsPart(d, p, a + b, |a|, |a + b|);
    assert (a + b)[0..|a|] == a;
    assert (a + b)[|a|..|a + b|] == b;
  }

  /** A field written reads back from wherever it stands. */
  lemma ValueStanding(d: seq<byte>, q: nat, w: Width, v: nat)
    requires v < Bound(w) && StandsAt(d, q, Field(w, v))
    ensures q + WidthBytes(w) <= |d| && Value(d, q, w) == v
  {
    var e := Field(w, v);
    PartAt(d, q, e, 0, |e|);
    assert e[0..|e|] == e;
    assert d == d[..q] + e + d[q + |e|..];
    ValueAt(d[..q], w, v, d[q + |e|..]);
  }

  /** A written record reads back as its own fields wherever it stands. */
  lemma {:induction false} ReadStanding(d: seq<byte>, p: nat, ws: seq<Width>, vs: seq<nat>)
    requires Fits(ws, vs) && StandsAt(d, p, Write(ws, vs))
    ensures p + Size(ws) <= |d| && Read(d, p, ws) == vs
    decreases |ws|
  {
    if ws != [] {
      var n := |ws| - 1;
      var q := p + Size(ws[..n]);
      StandingFront(d, p, ws, vs);
      ReadStanding(d, p, ws[..n], vs[..n]);
      assert Read(d, p, ws[..n]) == vs[..n];
      StandingLast(d, p, ws, vs);
      assert q + WidthBytes(ws[n]) <= |d|;
      assert Value(d, q, ws[n]) == vs[n];
      JoinLast(d, p, ws, vs, q);
    }
  }

  /** Where a record stands, the record of all its fields but the last stands too. */
  lemma StandingFront(d: seq<byte>, p: nat, ws: seq<Width>, vs: seq<nat>)
    requires Fits(ws, vs) && StandsAt(d, p, Write(ws, vs)) && ws != []
    ensures var n := |ws| - 1; Fits(ws[..n], vs[..n]) && StandsAt(d, p, Write(ws[..n], vs[..n]))
  {
    var n := |ws| - 1;
    FitsFront(ws, vs);
    WriteLast(ws, vs);
    StandsSplit(d, p, Write(ws[..n], vs[..n]), Field(ws[n], vs[n]));
  }

  /** Where a record stands, its last field reads back after the others. */
  lemma StandingLast(d: seq<byte>, p: nat, ws: seq<Width>, vs: seq<nat>)
    requires Fits(ws, vs) && StandsAt(d, p, Write(ws, vs)) && ws != []
    ensures var n := |ws| - 1; var q := p + Size(ws[..n]);
      q + WidthBytes(ws[n]) <= |d| && Value(d, q, ws[n]) == vs[n]
  {
    var n := |ws| - 1;
    WriteLast(ws, vs);
    StandsSplit(d, p, Write(ws[..n], vs[..n]), Field(ws[n], vs[n]));
    ValueStanding(d, p + Size(ws[..n]), ws[n], vs[n]);
  }

  /** A read whose fields before the last and whose last field are known. */
  lemma JoinLast(d: seq<byte>, p: nat, ws: seq<Width>, vs: seq<nat>, q: nat)
    requires |vs| == |ws| && ws != []
    requires q == p + Size(ws[..|ws| - 1]) && q + WidthBytes(ws[|ws| - 1]) <= |d|
    requires Read(d, p, ws[..|ws| - 1]) == vs[..|ws| - 1]
    requires Value(d, q, ws[|ws| - 1]) == vs[|ws| - 1]
    ensures p + Size(ws) <= |d| && Read(d, p, ws) == vs
  {
    ReadLast(d, p, ws);
    SplitLast(vs);
  }

  lemma FitsFront(ws: seq<Width>, vs: seq<nat>)
    requires Fits(ws, vs) && ws != []
    ensures var n := |ws| - 1; Fits(ws[..n], vs[..n]) && vs[n] < Bound(ws[n])
  {
  }

  lemma ReadLast(d: seq<byte>, p: nat, ws: seq<Width>)
    requires ws != [] && p + Size(ws) <= |d|
    ensures var n := |ws| - 1; Read(d, p, ws) == Read(d, p, ws[..n]) + [Value(d, p + Size(ws[..n]), ws[n])]
  {
  }

  /** Every value read is within its field's width. */
  lemma {:induction false} ReadFits(d: seq<byte>, p: nat, ws: seq<Width>)
    requires p + Size(ws) <= |d|
    ensures Fits(ws, Read(d, p, ws))
    decreases |ws|
  {
    if ws != [] {
      var n := |ws| - 1;
      ReadFits(d, p, ws[..n]);
      var vs := Read(d, p, ws);
      assert vs[..n] == Read(d, p, ws[..n]);
      forall k | 0 <= k < |ws| ensures vs[k] < Bound(ws[k]) {
        if k < n {
          assert vs[k] == vs[..n][k] && ws[k] == ws[..n][k];
        }
      }
    }
  }

  /** Writing the fields read at p gives back the bytes there. */
  lemma {:induction false} WrittenRead(d: seq<byte>, p: nat, ws: seq<Width>)
    requires p + Size(ws) <= |d|
    ensures Write(ws, Read(d, p, ws)) == d[p..p + Size(ws)]
    decreases |ws|
  {
    if ws != [] {
      WrittenRead(d, p, ws[..|ws| - 1]);
      WrittenLast(d, p, ws);
    }
  }

  /** Where the fields before the last write back as their bytes, so does the whole record. */
  lemma WrittenLast(d: seq<byte>, p: nat, ws: seq<Width>)
    requires ws != [] && p + Size(ws) <= |d|
    requires var front := ws[..|ws| - 1];
      Write(front, Read(d, p, front)) == d[p..p + Size(front)]
    ensures Write(ws, Read(d, p, ws)) == d[p..p + Size(ws)]
  {
    var n := |ws| - 1;
    var front := ws[..n];
    var q := p + Size(front);
    var vs := Read(d, p, ws);
    ReadLast(d, p, ws);
    assert vs[..n] == Read(d, p, front) && vs[n] == Value(d, q, ws[n]);
    calc {
      Write(ws, vs);
      { WriteLast(ws, vs); }
      Write(front, vs[..n]) + Field(ws[n], vs[n]);
      { FieldOfValue(d, q, ws[n]); }
      d[p..q] + d[q..p + Size(ws)];
      { Adjacent(d, p, q, p + Size(ws)); }
      d[p..p + Size(ws)];
    }
  }

  /** A record written: the fields before the last, then the last. */
  lemma WriteLast(ws: seq<Width>, vs: seq<nat>)
    requires |vs| == |ws| && ws != []
    ensures var n := |ws| - 1; Write(ws, vs) == Write(ws[..n], vs[..n]) + Field(ws[n], vs[n])
  {
  }

  lemma Adjacent(d: seq<byte>, i: nat, j: nat, k: nat)
    requires i <= j <= k <= |d|
    ensures d[i..k] == d[i..j] + d[j..k]
  {
  }

  /** The first i + 1 fields take the bytes of the first i and of field i. */
  lemma SizeStep(ws: seq<Width>, i: nat)
    requires i < |ws|
    ensures Size(ws[..i + 1]) == Size(ws[..i]) + WidthBytes(ws[i])
  {
    assert ws[..i + 1][..i] == ws[..i];
  }

  /** A read of a record whose first fields are read: the next field follows them. */
  lemma ReadSnoc(d: seq<byte>, p: nat, ws: seq<Width>, i: nat)
    requires i < |ws| && p + Size(ws[..i + 1]) <= |d|
    ensures Size(ws[..i + 1]) == Size(ws[..i]) + WidthBytes(ws[i])
    ensures Read(d, p, ws[..i + 1]) == Read(d, p, ws[..i]) + [Value(d, p + Size(ws[..i]), ws[i])]
  {
    assert ws[..i + 1][..i] == ws[..i];
  }

  /** Size counts every field while prefixes grow. */
  lemma {:induction false} SizePrefix(ws: seq<Width>, i: nat, j: nat)
    requires i <= j <= |ws|
    ensures Size(ws[..i]) <= Size(ws[..j])
    decreases j - i
  {
    if i < j {
      assert ws[..j][..j - 1] == ws[..j - 1];
      SizePrefix(ws, i, j - 1);
    }
  }

  /** One field's read: BinaryReader.ReadByte, ReadUInt16 or ReadUInt32. */
  method ReadValue(d: seq<byte>, p: nat, w: Width) returns (r: Result<nat>, q: nat)
    ensures r.Ok? <==> p + WidthBytes(w) <= |d|
    ensures r.Err? ==> r == Err(EndOfStream)
    ensures r.Ok? ==> r.value == Value(d, p, w) && q == p + WidthBytes(w)
  {
    match w
    case W8 =>
      var b;
      b, q := ReadU8(d, p);
      r := if b.Ok? then Ok(b.value) else Err(EndOfStream);
    case W16 =>
      var h;
      h, q := ReadU16(d, p);
      r := if h.Ok? then Ok(h.value) else Err(EndOfStream);
    case W32 =>
      var x;
      x, q := ReadU32(d, p);
      r := if x.Ok? then Ok(x.value) else Err(EndOfStream);
  }

  /** The reads of a record's fields in order; a read past the end fails with EndOfStream. */
  method ReadFields(d: seq<byte>, p: nat, ws: seq<Width>) returns (r: Result<seq<nat>>, q: nat)
    ensures r.Ok? <==> p + Size(ws) <= |d|
    ensures r.Err? ==> r == Err(EndOfStream)
    ensures r.Ok? ==> r.value == Read(d, p, ws) && q == p + Size(ws)
  {
    if p > |d| {
      return Err(EndOfStream), p;
    }
    var vs: seq<nat> := [];
    q := p;
    var i := 0;
    assert ws[..0] == [];
    assert ws[..|ws|] == ws;
    while i < |ws|
      invariant 0 <= i <= |ws|
      invariant q == p + Size(ws[..i]) <= |d|
      invariant vs == Read(d, p, ws[..i])
    {
      var v;
      var q2;
      v, q2 := ReadValue(d, q, ws[i]);
      SizeStep(ws, i);
      if v.Err? {
        SizePrefix(ws, i + 1, |ws|);
        return Err(EndOfStream), q;
      }
      ReadSnoc(d, p, ws, i);
      vs := vs + [v.value];
      q := q2;
      i := i + 1;
    }
    r := Ok(vs);
  }
}
