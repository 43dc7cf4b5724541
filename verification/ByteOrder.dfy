/** Numbers as bytes in memory, lowest byte first. */
module ByteOrder {
  import opened Words

  type Byte = b: nat | b < 256

  type Bytes = seq<Byte>

  function Power256(n: nat): (p: nat)
    ensures p > 0
  {
    if n == 0 then 1 else 256 * Power256(n - 1)
  }

  function Fixed(v: nat, n: nat): (b: Bytes)
    ensures |b| == n
    decreases n
  {
    if n == 0 then [] else [v % 256] + Fixed(v / 256, n - 1)
  }

  function FromFixed(b: Bytes): nat {
    if b == [] then 0 else b[0] + 256 * FromFixed(b[1..])
  }

  lemma {:induction false} FixedValue(v: nat, n: nat)
    requires v < Power256(n)
    ensures FromFixed(Fixed(v, n)) == v
    decreases n
  {
    if n > 0 {
      FixedValue(v / 256, n - 1);
      assert Fixed(v, n)[1..] == Fixed(v / 256, n - 1);
    }
  }

  /** A fixed-width number that was read fits its width. */
  lemma {:induction false} FromFixedBound(b: Bytes)
    ensures FromFixed(b) < Power256(|b|)
  {
    if b != [] {
      FromFixedBound(b[1..]);
    }
  }

  lemma Widths()
    ensures Power256(1) == 0x100 && Power256(2) == 0x1_0000 && Power256(4) == 0x1_0000_0000 && Power256(8) == TWO_64
  {
    assert Power256(2) == 256 * Power256(1);
    assert Power256(4) == 256 * 256 * Power256(2);
    assert Power256(6) == 256 * 256 * Power256(4);
    assert Power256(8) == 256 * 256 * Power256(6);
  }
}
