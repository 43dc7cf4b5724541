/** Facts about multiplication, division and remainder that the models share. */
module Arithmetic {

  lemma MulMonotone(a: int, b: int, c: int)
    requires a <= b && 0 <= c
    ensures a * c <= b * c
  {
  }

  /** Quotient and remainder are the only decomposition. */
  lemma DivModUnique(x: int, c: int, q: int, r: int)
    requires 0 < c && x == q * c + r && 0 <= r < c
    ensures x / c == q && x % c == r
  {
    var p := x / c;
    assert x == p * c + x % c;
    assert (p - q) * c == r - x % c;
    if p > q {
      MulMonotone(1, p - q, c);
    } else if p < q {
      MulMonotone(p - q, -1, c);
    }
  }

  /** Numbers less than c apart leave different remainders. */
  lemma ModDistinct(a: int, b: int, c: int)
    requires 0 < c && a < b < a + c
    ensures a % c != b % c
  {
    if a % c == b % c {
      var p, q := a / c, b / c;
      assert a == p * c + a % c && b == q * c + b % c;
      assert (q - p) * c == b - a;
      if q > p {
        MulMonotone(1, q - p, c);
      } else {
        MulMonotone(q - p, 0, c);
      }
    }
  }

  function Pow2(e: nat): (p: nat)
    ensures p > 0
  {
    if e == 0 then 1 else 2 * Pow2(e - 1)
  }

  lemma {:induction false} Pow2Splits(a: nat, b: nat)
    ensures Pow2(a + b) == Pow2(a) * Pow2(b)
  {
    if a > 0 {
      Pow2Splits(a - 1, b);
      assert Pow2(a + b) == 2 * Pow2(a - 1 + b);
      MulAssoc(2, Pow2(a - 1), Pow2(b));
    }
  }

  lemma MulAssoc(a: int, b: int, c: int)
    ensures a * (b * c) == (a * b) * c
  {
  }

  lemma {:induction false} Pow2Monotone(a: nat, b: nat)
    requires a <= b
    ensures Pow2(a) <= Pow2(b)
  {
    if a < b {
      Pow2Monotone(a, b - 1);
    }
  }

  /** Adding a multiple of c does not change the remainder. */
  lemma ModShift(x: int, k: int, c: int)
    requires 0 < c
    ensures (x + k * c) % c == x % c
  {
    DivModUnique(x + k * c, c, x / c + k, x % c);
  }
}
