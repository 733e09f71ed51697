/// Records of one kind read back to back, as a loop of `count` reads does.
module Repeated {
  import opened Outcome
  import opened Bytes

  /**
   * The bytes of each element, one after another. Join and JoinNext, like Repeat and
   * RepeatNext below, are written as a pair so that each unfolding of a definition
   * exposes at most one element.
   */
  function Join<T>(enc: T --> seq<byte>, xs: seq<T>): (s: seq<byte>)
    requires forall x :: x in xs ==> enc.requires(x)
    decreases |xs|, 1
  {
    if xs == [] then [] else JoinNext(enc, xs)
  }

  /** The first element's bytes, then the others'. */
  function JoinNext<T>(enc: T --> seq<byte>, xs: seq<T>): (s: seq<byte>)
    requires xs != [] && forall x :: x in xs ==> enc.requires(x)
    decreases |xs|, 0
  {
    enc(xs[0]) + Join(enc, xs[1..])
  }

  /** xs in front of what r reads. */
  function Prepend<T>(xs: seq<T>, r: Result<(seq<T>, nat)>): (r': Result<(seq<T>, nat)>)
    ensures r'.Ok? <==> r.Ok?
    ensures r'.Ok? ==> r'.value == (xs + r.value.0, r.value.1)
  {
    match r
    case Err(e) => Err(e)
    case Ok((ys, q)) => Ok((xs + ys, q))
  }

  /** Nothing in front changes nothing. */
  lemma PrependNothing<T>(r: Result<(seq<T>, nat)>)
    ensures Prepend([], r) == r
  {
    if r.Ok? {
      assert [] + r.value.0 == r.value.0;
    }
  }

  /** One turn of a reading loop: the element x moves from what is left to the prefix. */
  lemma PrependStep<T>(xs: seq<T>, x: T, rest: Result<(seq<T>, nat)>)
    ensures Prepend(xs, Prepend([x], rest)) == Prepend(xs + [x], rest)
  {
    if rest.Ok? {
      assert xs + ([x] + rest.value.0) == xs + [x] + rest.value.0;
    }
  }

  /**
   * count elements read with dec from position p, each starting where the previous
   * one ended; the first failing read ends the whole.
   */
  function Repeat<T>(dec: (seq<byte>, nat) -> Result<(T, nat)>, d: seq<byte>, p: nat, count: nat)
    : (r: Result<(seq<T>, nat)>)
    ensures r.Ok? ==> |r.value.0| == count
    decreases count, 1
  {
    if count == 0 then Ok(([], p)) else RepeatNext(dec, d, p, count)
  }

  /** The first of count > 0 elements, then the rest. */
  function RepeatNext<T>(dec: (seq<byte>, nat) -> Result<(T, nat)>, d: seq<byte>, p: nat, count: nat)
    : (r: Result<(seq<T>, nat)>)
    requires count > 0
    ensures r.Ok? ==> |r.value.0| == count
    decreases count, 0
  {
    match dec(d, p)
    case Err(e) => Err(e)
    case Ok((x, q)) => Prepend([x], Repeat(dec, d, q, count - 1))
  }

  /** One more element read after the first i. */
  lemma RepeatStep<T>(dec: (seq<byte>, nat) -> Result<(T, nat)>, d: seq<byte>, q: nat, count: nat,
                      xs: seq<T>, x: T, q': nat)
    requires count > 0 && dec(d, q) == Ok((x, q'))
    ensures Prepend(xs, Repeat(dec, d, q, count)) == Prepend(xs + [x], Repeat(dec, d, q', count - 1))
  {
    var r := Repeat(dec, d, q', count - 1);
    if r.Ok? {
      assert xs + ([x] + r.value.0) == (xs + [x]) + r.value.0;
    }
  }

  /** A failing read fails the whole. */
  lemma RepeatFails<T>(dec: (seq<byte>, nat) -> Result<(T, nat)>, d: seq<byte>, q: nat, count: nat,
                       xs: seq<T>)
    requires count > 0 && dec(d, q).Err?
    ensures Prepend(xs, Repeat(dec, d, q, count)).Err?
  {
  }

  /** An element read in front of the others. */
  lemma RepeatCons<T>(dec: (seq<byte>, nat) -> Result<(T, nat)>, d: seq<byte>, p: nat, x: T, q: nat,
                      xs: seq<T>, r: nat)
    requires dec(d, p) == Ok((x, q)) && Repeat(dec, d, q, |xs|) == Ok((xs, r))
    ensures Repeat(dec, d, p, |xs| + 1) == Ok(([x] + xs, r))
  {
  }

  /** Every element of xs reads back with dec from its own bytes, wherever they stand in d. */
  ghost predicate ReadsBack<T>(dec: (seq<byte>, nat) -> Result<(T, nat)>, enc: T --> seq<byte>, d: seq<byte>,
                         xs: seq<T>)
    requires forall x :: x in xs ==> enc.requires(x)
  {
    forall i, q: nat {:trigger StandsAt(d, q, enc(xs[i]))} ::
      0 <= i < |xs| && StandsAt(d, q, enc(xs[i])) ==> dec(d, q) == Ok((xs[i], q + |enc(xs[i])|))
  }

  /** What reads back of a sequence reads back of its tail. */
  lemma ReadsBackTail<T>(dec: (seq<byte>, nat) -> Result<(T, nat)>, enc: T --> seq<byte>, d: seq<byte>,
                         xs: seq<T>)
    requires xs != [] && forall x :: x in xs ==> enc.requires(x)
    requires ReadsBack(dec, enc, d, xs)
    ensures ReadsBack(dec, enc, d, xs[1..])
  {
    forall i, q: nat | 0 <= i < |xs[1..]| && StandsAt(d, q, enc(xs[1..][i]))
      ensures dec(d, q) == Ok((xs[1..][i], q + |enc(xs[1..][i])|))
    {
      assert xs[1..][i] == xs[i + 1];
    }
  }

  /**
   * When every element reads back from its own bytes, wherever they stand, the
   * joined bytes read back as the whole sequence, in order, ending at its end.
   */
  lemma {:induction false} RepeatRoundTrip<T>(dec: (seq<byte>, nat) -> Result<(T, nat)>,
                                              enc: T --> seq<byte>, d: seq<byte>, p: nat, xs: seq<T>)
    requires forall x :: x in xs ==> enc.requires(x)
    requires ReadsBack(dec, enc, d, xs)
    requires StandsAt(d, p, Join(enc, xs))
    ensures Repeat(dec, d, p, |xs|) == Ok((xs, p + |Join(enc, xs)|))
    decreases |xs|
  {
    if xs != [] {
      var e0 := enc(xs[0]);
      var e1 := Join(enc, xs[1..]);
      var e := e0 + e1;
      assert Join(enc, xs) == e;
      StandsPart(d, p, e, 0, |e0|);
      assert e[0..|e0|] == e0;
      StandsPart(d, p, e, |e0|, |e|);
      assert e[|e0|..|e|] == e1;
      assert StandsAt(d, p, enc(xs[0]));
      ReadsBackTail(dec, enc, d, xs);
      RepeatRoundTrip(dec, enc, d, p + |e0|, xs[1..]);
      RepeatCons(dec, d, p, xs[0], p + |e0|, xs[1..], p + |e0| + |e1|);
      assert [xs[0]] + xs[1..] == xs;
    }
  }
}
