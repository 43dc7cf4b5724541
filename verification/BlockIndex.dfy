/**
  How a dequeued index is mapped to a slot of the block index (common/concurrentqueue.h, `dequeue` of the explicit
  producer and `get_block_index_index_for_index` of the implicit one). Indices wrap at 2^64. The offset between the
  block and the newest block is negative, but dividing by the unsigned BLOCK_SIZE converts it to a huge unsigned
  number first.
 */
module BlockIndex {
  import opened Arithmetic
  import opened CircularIndex
  import opened Words

  /** `index & ~(BLOCK_SIZE - 1)` for a power of two. */
  function RoundDown(index: Index, blockSize: nat): Index
    requires blockSize > 0
  {
    index - index % blockSize
  }

  /** The slot the code computes from the newest slot and its base. */
  function ComputedSlot(index: Index, newestBase: Index, newest: nat, blockSize: nat, slots: nat): nat
    requires blockSize > 0 && slots > 0
  {
    var offset := Wrap(RoundDown(index, blockSize) - newestBase) / blockSize;
    Wrap(newest + offset) % slots
  }

  /** The unsigned quotient of a negative multiple of the block size. */
  lemma NegativeOffset(m: nat, blockSize: nat, blocks: nat)
    requires blocks * blockSize == TWO_64 && blockSize > 0 && 0 < m <= blocks
    ensures Wrap(-(m * blockSize)) / blockSize == blocks - m
  {
    MulMonotone(m, blocks, blockSize);
    MulMonotone(1, m, blockSize);
    assert Wrap(-(m * blockSize)) == TWO_64 - m * blockSize;
    assert TWO_64 - m * blockSize == (blocks - m) * blockSize + 0;
    DivModUnique(TWO_64 - m * blockSize, blockSize, blocks - m, 0);
  }

  lemma SlotBehindCore(
      B: nat, slots: nat, blocks: nat, q: nat, index: Index, newestBase: Index, newest: nat, m: nat)
    requires B >= 2 && slots > 0 && blocks * B == TWO_64 && blocks == q * slots && slots <= blocks
    requires newest < slots && m < slots
    requires RoundDown(index, B) == Wrap(newestBase - m * B)
    ensures ComputedSlot(index, newestBase, newest, B, slots) == (newest - m) % slots
  {
    var d := m * B;
    OffsetValue(RoundDown(index, B), newestBase, d);
    if m == 0 {
      DivModUnique(0, B, 0, 0);
      NoWrap(newest, blocks, B);
    } else {
      NegativeOffset(m, B, blocks);
      NoWrap(newest + blocks - m, blocks, B);
      ModShift(newest - m, q, slots);
    }
  }

  lemma OffsetValue(rounded: Index, newestBase: Index, d: int)
    requires rounded == Wrap(newestBase - d)
    ensures Wrap(rounded - newestBase) == Wrap(-d)
  {
    WrapSum(newestBase - d, 0 - newestBase);
  }

  /** m blocks behind the newest one, the code finds the slot m places before the newest. */
  lemma SlotBehind(b: nat, e: nat, index: Index, newestBase: Index, newest: nat, m: nat)
    requires 1 <= b && b + e <= 64
    requires newest < Pow2(e) && m < Pow2(e)
    requires RoundDown(index, Pow2(b)) == Wrap(newestBase - m * Pow2(b))
    ensures ComputedSlot(index, newestBase, newest, Pow2(b), Pow2(e)) == (newest - m) % Pow2(e)
  {
    Pow2Of64();
    Pow2Splits(64 - b, b);
    Pow2Splits(64 - b - e, e);
    Pow2Monotone(e, 64 - b);
    Pow2Monotone(1, b);
    SlotBehindCore(Pow2(b), Pow2(e), Pow2(64 - b), Pow2(64 - b - e), index, newestBase, newest, m);
  }

  lemma NoWrap(x: nat, blocks: nat, B: nat)
    requires blocks * B == TWO_64 && B >= 2 && x < 2 * blocks
    ensures Wrap(x) == x
  {
    MulMonotone(2, B, blocks);
  }

  /**
    If the `used` newest slots hold consecutive block bases, the computed slot of any index in one of those blocks
    holds exactly the index rounded down to its block.
   */
  lemma SlotHoldsBlock(b: nat, e: nat, bases: seq<Index>, newest: nat, used: nat, index: Index, m: nat)
    requires 1 <= b && b + e <= 64 && |bases| == Pow2(e)
    requires newest < |bases| && used <= |bases| && m < used
    requires forall i | 0 <= i < used :: bases[(newest - i) % |bases|] == Wrap(bases[newest] - i * Pow2(b))
    requires RoundDown(index, Pow2(b)) == Wrap(bases[newest] - m * Pow2(b))
    ensures var slot := ComputedSlot(index, bases[newest], newest, Pow2(b), |bases|);
            slot < |bases| && bases[slot] == RoundDown(index, Pow2(b))
  {
    SlotBehind(b, e, index, bases[newest], newest, m);
  }
}
