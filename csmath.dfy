/// C#'s integer division and remainder, which truncate toward zero
/// (Dafny's `/` and `%` are Euclidean).
module CsMath {
  function Abs(x: int): (a: nat)
    ensures a == x || a == -x
  {
    if x < 0 then -x else x
  }

  function Div(a: int, b: int): (q: int)
    requires b != 0
    ensures Abs(q * b) <= Abs(a) && Abs(a) < Abs(q * b) + Abs(b)
    ensures q == 0 || (q < 0) == ((a < 0) != (b < 0))
  {
    var n := Abs(a) / Abs(b);
    QuotientBounds(Abs(a), Abs(b));
    var q := if (a < 0) == (b < 0) then n else -n;
    AbsProduct(q, b);
    q
  }

  function Rem(a: int, b: int): (r: int)
    requires b != 0
    ensures a == Div(a, b) * b + r
    ensures Abs(r) < Abs(b)
    ensures r == 0 || (r < 0) == (a < 0)
  {
    a - Div(a, b) * b
  }

  /** The Euclidean quotient of naturals, bounded by the dividend. */
  lemma QuotientBounds(x: nat, y: nat)
    requires y > 0
    ensures 0 <= x / y && (x / y) * y <= x < (x / y) * y + y
  {
  }

  lemma AbsProduct(q: int, b: int)
    ensures Abs(q * b) == Abs(q) * Abs(b)
  {
    if q < 0 {
      assert q * b == -((-q) * b);
    }
    if b < 0 {
      assert q * b == -(q * (-b));
    }
  }

  /** On non-negative operands C#'s operators agree with Dafny's. */
  lemma NonNegativeAgrees(a: nat, b: int)
    requires b > 0
    ensures Div(a, b) == a / b && Rem(a, b) == a % b
  {
  }

  /** C#'s `(int)` cast of a real (float) value: truncation toward zero. */
  function Truncate(x: real): (n: int)
    ensures Abs(n) as real <= (if x < 0.0 then -x else x) < Abs(n) as real + 1.0
    ensures n == 0 || (n < 0) == (x < 0.0)
  {
    if x >= 0.0 then x.Floor else -((-x).Floor)
  }

  function Ceiling(x: real): (n: int)
    ensures x <= n as real < x + 1.0
  {
    -((-x).Floor)
  }
}
