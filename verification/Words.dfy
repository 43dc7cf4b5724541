/** 64-bit machine words as numbers: results of arithmetic are reduced modulo 2^64. */
module Words {
  import opened Arithmetic

  const TWO_64: nat := 0x1_0000_0000_0000_0000
  const HALF: nat := 0x8000_0000_0000_0000

  type Word64 = i: nat | i < TWO_64

  /** The 64-bit register value of an unbounded count. */
  function Wrap(x: int): Word64 {
    x % TWO_64
  }

  lemma WrapDifference(a: int, b: int)
    ensures Wrap(Wrap(a) - Wrap(b)) == Wrap(a - b)
  {
    var p, q := a / TWO_64, b / TWO_64;
    assert Wrap(a) - Wrap(b) == a - b - (p - q) * TWO_64;
    WrapShift(a - b, -(p - q));
  }

  lemma WrapShift(x: int, k: int)
    ensures Wrap(x + k * TWO_64) == Wrap(x)
  {
    var q := x / TWO_64;
    assert x + k * TWO_64 == (q + k) * TWO_64 + Wrap(x);
  }

  lemma WrapSum(a: int, b: int)
    ensures Wrap(Wrap(a) + b) == Wrap(a + b)
  {
    var p := a / TWO_64;
    assert Wrap(a) + b == a + b + (-p) * TWO_64;
    WrapShift(a + b, -p);
  }

  lemma {:induction false} Pow2Of64()
    ensures Pow2(64) == TWO_64
  {
    assert Pow2(4) == 16;
    Pow2Splits(4, 4);
    Pow2Splits(8, 8);
    Pow2Splits(16, 16);
    Pow2Splits(32, 32);
  }

  /** A 64-bit difference read as a signed number. */
  function Signed(x: Word64): int {
    if x < HALF then x else x - TWO_64
  }

  function Delta(target: Word64, from: Word64): int {
    Signed(Wrap(target - from))
  }

  lemma DeltaReaches(target: Word64, from: Word64)
    ensures Wrap(from + Delta(target, from)) == target
  {
    WrapSum(target - from, from);
    WrapShift(Wrap(target - from) + from, -1);
  }
}
