/** Wrapped 64-bit queue indices (common/concurrentqueue.h, `circular_less_than`). */
module CircularIndex {
  import opened Words

  type Index = Word64

  predicate CircularLess(a: Index, b: Index) {
    Wrap(a - b) > HALF
  }

  /**
    On counts less than 2^64 apart the comparison is wrong exactly when they are 2^63 or more apart
    (b ahead) or more than 2^63 apart (a ahead).
   */
  lemma CircularLessExact(a: int, b: int)
    requires b - a < TWO_64 && a - b < TWO_64
    ensures CircularLess(Wrap(a), Wrap(b)) <==> 0 < b - a < HALF || a - b > HALF
    ensures (CircularLess(Wrap(a), Wrap(b)) <==> a < b) <==> b - a < HALF && a - b <= HALF
  {
    WrapDifference(a, b);
  }
}
