/// IEEE-754 single-precision values kept as their 32-bit patterns, with the exact
/// meaning of C#'s float comparisons on them.
module Float32 {
  import opened Bytes

  const Zero: u32 := 0x0000_0000
  const NegativeZero: u32 := 0x8000_0000
  const One: u32 := 0x3F80_0000
  /** The float nearest to 0.1, written `0.1f` in C#. */
  const PointOne: u32 := 0x3DCC_CCCD
  const Sixteen: u32 := 0x4180_0000

  /** A Vector3 kept as the IEEE-754 bits of its three floats. */
  datatype Vec3Bits = Vec3Bits(x: u32, y: u32, z: u32)

  function Exponent(w: u32): (e: nat)
    ensures e < 0x100
  {
    (w / 0x80_0000) % 0x100
  }

  function Mantissa(w: u32): (m: nat)
    ensures m < 0x80_0000
  {
    w % 0x80_0000
  }

  /**
   * A NaN: all exponent bits set and a non-zero mantissa, that is a magnitude
   * above that of infinity (0x7F80_0000), with either sign.
   */
  predicate IsNaN(w: u32)
  {
    0x7F80_0000 < w < 0x8000_0000 || 0xFF80_0000 < w
  }

  /** Neither an infinity nor a NaN: an exponent below all ones. */
  predicate IsFinite(w: u32)
  {
    w < 0x7F80_0000 || 0x8000_0000 <= w < 0xFF80_0000
  }

  /** The two predicates read the exponent and mantissa fields as IEEE-754 defines them. */
  lemma ClassesByFields(w: u32)
    ensures IsNaN(w) <==> Exponent(w) == 0xFF && Mantissa(w) != 0
    ensures IsFinite(w) <==> Exponent(w) != 0xFF
  {
    var q := w / 0x80_0000;
    assert w == q * 0x80_0000 + Mantissa(w);
    assert q < 0x200;
    assert Exponent(w) == if q >= 0x100 then q - 0x100 else q;
  }

  /**
   * An integer that orders the non-NaN floats as their values are ordered:
   * the magnitude bits, negated for a set sign bit (so +0 and -0 both map to 0).
   */
  function OrderKey(w: u32): (k: int)
    ensures -0x8000_0000 < k < 0x8000_0000
    ensures (k == 0) <==> (w == Zero || w == NegativeZero)
    ensures k < 0 <==> w >= 0x8000_0000 && w != NegativeZero
  {
    if w >= 0x8000_0000 then -(w - 0x8000_0000) else w
  }

  /** C#'s `a < b`: false whenever either side is NaN. */
  predicate Less(a: u32, b: u32)
  {
    !IsNaN(a) && !IsNaN(b) && OrderKey(a) < OrderKey(b)
  }

  /** C#'s `a == b`: false for NaN, true for +0 against -0. */
  predicate Equal(a: u32, b: u32)
  {
    !IsNaN(a) && !IsNaN(b) && OrderKey(a) == OrderKey(b)
  }

  lemma LessIrreflexive(a: u32)
    ensures !Less(a, a)
  {
  }

  lemma LessTransitive(a: u32, b: u32, c: u32)
    requires Less(a, b) && Less(b, c)
    ensures Less(a, c)
  {
  }

  /** A NaN compares false with everything, so it passes every `x < c` guard. */
  lemma NaNNeverLess(a: u32, b: u32)
    requires IsNaN(a) || IsNaN(b)
    ensures !Less(a, b) && !Less(b, a) && !Equal(a, b)
  {
  }

  lemma EqualOnlyZeroes(a: u32)
    requires Equal(a, Zero)
    ensures a == Zero || a == NegativeZero
  {
  }

  lemma EqualOne(a: u32)
    ensures Equal(a, One) <==> a == One
  {
  }

  function Pow2(n: nat): (p: nat)
    ensures p >= 1
  {
    if n == 0 then 1 else 2 * Pow2(n - 1)
  }

  /** The exact real value of a finite float. */
  function ToReal(w: u32): real
    requires IsFinite(w)
  {
    var e := Exponent(w);
    var significand := if e == 0 then Mantissa(w) else 0x80_0000 + Mantissa(w);
    var scale := if e == 0 then 1 else e;
    var magnitude :=
      if scale >= 150 then (significand * Pow2(scale - 150)) as real
      else significand as real / Pow2(150 - scale) as real;
    if w >= 0x8000_0000 then -magnitude else magnitude
  }
}
