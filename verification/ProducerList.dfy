/**
  Dequeuing from a queue with several producers (common/concurrentqueue.h, `try_dequeue`), run sequentially: the
  fullest of the first three nonempty producers is tried first.
 */
module ProducerList {
  import opened ExplicitProducer
  import opened Words
  import opened Wrappers

  ghost predicate Distinct<T>(producers: seq<ExplicitProducer<T>>) {
    forall i, j | 0 <= i < j < |producers| :: producers[i] != producers[j]
  }

  ghost predicate AllValid<T>(producers: seq<ExplicitProducer<T>>)
    reads producers
  {
    forall i | 0 <= i < |producers| :: producers[i].Valid()
  }

  ghost predicate AllCounted<T>(producers: seq<ExplicitProducer<T>>)
    reads producers
  {
    forall i | 0 <= i < |producers| :: producers[i].Counted()
  }

  ghost function AllContents<T>(producers: seq<ExplicitProducer<T>>): (all: seq<seq<T>>)
    reads producers
    ensures |all| == |producers|
  {
    seq(|producers|, i requires 0 <= i < |producers| reads producers => producers[i].Contents())
  }

  /** The producer can be seen to hold something: it is not empty and holds fewer than 2^63 elements. */
  ghost predicate Offers<T>(contents: seq<T>) {
    0 < |contents| < HALF
  }

  ghost predicate SomeOffers<T>(all: seq<seq<T>>) {
    exists i :: 0 <= i < |all| && Offers(all[i])
  }

  /** How many of the first n producers offer something. */
  ghost function Offering<T>(all: seq<seq<T>>, n: nat): nat
    requires n <= |all|
  {
    if n == 0 then 0 else Offering(all, n - 1) + (if Offers(all[n - 1]) then 1 else 0)
  }

  /** The choice after n producers have been looked at: the first of the fullest among those that offer something. */
  ghost predicate Chosen<T>(all: seq<seq<T>>, n: nat, best: Option<nat>) {
    && n <= |all|
    && (best.None? ==> forall j | 0 <= j < n :: !Offers(all[j]))
    && (best.Some? ==>
          && best.value < n && Offers(all[best.value])
          && (forall j | 0 <= j < best.value && Offers(all[j]) :: |all[j]| < |all[best.value]|)
          && (forall j | best.value < j < n && Offers(all[j]) :: |all[j]| <= |all[best.value]|))
  }

  /** The loop variables of the search. */
  ghost predicate Scanned<T>(all: seq<seq<T>>, n: nat, best: Option<nat>, bestSize: nat, nonEmpty: nat) {
    && Chosen(all, n, best)
    && bestSize == (if best.Some? then |all[best.value]| else 0)
    && nonEmpty == Offering(all, n)
    && (best.Some? <==> nonEmpty > 0)
  }

  lemma ScanStep<T>(all: seq<seq<T>>, n: nat, best: Option<nat>, bestSize: nat, nonEmpty: nat, size: nat)
    requires n < |all| && Scanned(all, n, best, bestSize, nonEmpty)
    requires size == if |all[n]| < HALF then |all[n]| else 0
    ensures size > bestSize ==> Scanned(all, n + 1, Some(n), size, nonEmpty + 1)
    ensures 0 < size <= bestSize ==> Scanned(all, n + 1, best, bestSize, nonEmpty + 1)
    ensures size == 0 ==> Scanned(all, n + 1, best, bestSize, nonEmpty)
  {
  }

  lemma ScanEnd<T>(all: seq<seq<T>>, n: nat, best: Option<nat>, bestSize: nat, nonEmpty: nat)
    requires Scanned(all, n, best, bestSize, nonEmpty) && (n == |all| || nonEmpty == 3)
    ensures best.Some? <==> SomeOffers(all)
    ensures n == |all| || Offering(all, n) == 3
  {
    if best.Some? {
      assert Offers(all[best.value]);
    }
  }

  /** The first loop, which stops after three producers that offer something. */
  method PickBest<T>(producers: seq<ExplicitProducer<T>>) returns (best: Option<nat>, ghost scanned: nat)
    requires AllCounted(producers)
    ensures scanned <= |producers| && Chosen(AllContents(producers), scanned, best)
    ensures scanned == |producers| || Offering(AllContents(producers), scanned) == 3
    ensures best.Some? <==> SomeOffers(AllContents(producers))
  {
    var nonEmpty, bestSize, i := 0, 0, 0;
    ghost var all := AllContents(producers);
    best := None;
    while i < |producers| && nonEmpty < 3
      invariant i <= |producers| && nonEmpty <= 3 && Scanned(all, i, best, bestSize, nonEmpty)
    {
      var size := producers[i].SizeApprox();
      ScanStep(all, i, best, bestSize, nonEmpty, size);
      if size > 0 {
        if size > bestSize {
          bestSize, best := size, Some(i);
        }
        nonEmpty := nonEmpty + 1;
      }
      i := i + 1;
    }
    ScanEnd(all, i, best, bestSize, nonEmpty);
    scanned := i;
  }

  /**
    Fails exactly when no producer offers anything; otherwise removes the head of exactly one producer, the first of the
    fullest among the first three that offer something.
   */
  method TryDequeue<T>(producers: seq<ExplicitProducer<T>>)
      returns (ok: bool, element: Option<T>, ghost from: nat, ghost scanned: nat)
    requires Distinct(producers) && AllValid(producers)
    modifies producers
    ensures AllValid(producers)
    ensures ok <==> SomeOffers(old(AllContents(producers)))
    ensures ok ==>
              var before := old(AllContents(producers));
              && from < |producers| && Offers(before[from]) && element == Some(before[from][0])
              && Chosen(before, scanned, Some(from)) && (scanned == |before| || Offering(before, scanned) == 3)
              && AllContents(producers) == before[from := before[from][1..]]
    ensures !ok ==> element == None && AllContents(producers) == old(AllContents(producers))
  {
    ghost var before := AllContents(producers);
    var best;
    best, scanned := PickBest(producers);
    from := 0;
    ok, element := false, None;
    if best.Some? {
      from := best.value;
      ok, element := DequeueFrom(producers, best.value);
      if !ok {
        // The other producers are tried only after another consumer has emptied the best one.
        assert false;
      }
    }
  }

  /** Dequeues from one of the producers; the others do not change. */
  method DequeueFrom<T>(producers: seq<ExplicitProducer<T>>, at: nat) returns (ok: bool, element: Option<T>)
    requires Distinct(producers) && AllValid(producers) && at < |producers|
    modifies producers[at]
    ensures AllValid(producers)
    ensures var before := old(AllContents(producers));
            && (ok <==> Offers(before[at]))
            && element == (if ok then Some(before[at][0]) else None)
            && AllContents(producers) == if ok then before[at := before[at][1..]] else before
  {
    ok, element := producers[at].Dequeue();
    forall i | 0 <= i < |producers| && i != at ensures producers[i] != producers[at] {
    }
  }
}
