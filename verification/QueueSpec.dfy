/**
  What a user of one producer sees (common/concurrentqueue.h, `ExplicitProducer` run sequentially), without blocks,
  links or wrapped registers: a first-in first-out sequence and the two counts that decide when an element is refused.
  Below 2^63 - 32 elements nothing is ever refused; a queue of exactly 2^63 elements can be built, and looks empty.
 */
module QueueSpec {
  import opened BlockRing
  import opened Words
  import opened Wrappers

  /** `enqueued` counts accepted elements; the ring has `blocks` blocks, the oldest of which is number `first`. */
  datatype Queue<T> = Queue(contents: seq<T>, enqueued: nat, first: nat, blocks: nat)

  function Empty<T>(): Queue<T> {
    Queue([], 0, 0, 0)
  }

  /** All elements of the oldest block have been taken. */
  predicate Reusable<T>(q: Queue<T>) {
    q.blocks > 0 && BLOCK_SIZE * (q.first + 1) <= q.enqueued - |q.contents|
  }

  /** Only a full tail block can lead to a refusal: if no block can be reused and too much is queued for another one. */
  predicate Admits<T>(q: Queue<T>) {
    q.enqueued % BLOCK_SIZE != 0 || Reusable(q) || |q.contents| + BLOCK_SIZE < HALF
  }

  function Put<T>(q: Queue<T>, x: T): Queue<T> {
    if !Admits(q) then q
    else
      var q' := q.(contents := q.contents + [x], enqueued := q.enqueued + 1);
      if q.enqueued % BLOCK_SIZE != 0 then q'
      else if Reusable(q) then q'.(first := q.first + 1)
      else q'.(blocks := q.blocks + 1)
  }

  /** The wrapped comparison sees that the queue holds something. */
  predicate Offers<T>(q: Queue<T>) {
    0 < |q.contents| < HALF
  }

  function Take<T>(q: Queue<T>): Queue<T> {
    if Offers(q) then q.(contents := q.contents[1..]) else q
  }

  // ---- Runs

  datatype Operation<T> = Enqueue(x: T) | Dequeue

  datatype Outcome<T> = Accepted | Refused | Got(x: T) | Nothing

  function Apply<T>(q: Queue<T>, op: Operation<T>): Queue<T> {
    match op
    case Enqueue(x) => Put(q, x)
    case Dequeue => Take(q)
  }

  function Result<T>(q: Queue<T>, op: Operation<T>): Outcome<T> {
    match op
    case Enqueue(_) => if Admits(q) then Accepted else Refused
    case Dequeue => if Offers(q) then Got(q.contents[0]) else Nothing
  }

  function After<T>(ops: seq<Operation<T>>): Queue<T> {
    if ops == [] then Empty() else Apply(After(ops[..|ops| - 1]), ops[|ops| - 1])
  }

  function Outcomes<T>(ops: seq<Operation<T>>): seq<Outcome<T>> {
    if ops == [] then [] else Outcomes(ops[..|ops| - 1]) + [Result(After(ops[..|ops| - 1]), ops[|ops| - 1])]
  }

  // ---- The ideal queue

  /** A first-in first-out queue after a run. */
  function Fifo<T>(ops: seq<Operation<T>>): seq<T> {
    if ops == [] then []
    else
      var before := Fifo(ops[..|ops| - 1]);
      match ops[|ops| - 1]
      case Enqueue(x) => before + [x]
      case Dequeue => if before == [] then [] else before[1..]
  }

  function FifoOutcomes<T>(ops: seq<Operation<T>>): seq<Outcome<T>> {
    if ops == [] then []
    else
      var init := ops[..|ops| - 1];
      FifoOutcomes(init) +
      [if ops[|ops| - 1].Enqueue? then Accepted else if Fifo(init) == [] then Nothing else Got(Fifo(init)[0])]
  }

  /** However long a run, as long as fewer than 2^63 - 32 elements are queued the queue is the ideal one. */
  lemma {:induction false} IdealBelow<T>(ops: seq<Operation<T>>)
    requires forall i | 0 <= i < |ops| :: |Fifo(ops[..i])| + BLOCK_SIZE < HALF
    ensures After(ops).contents == Fifo(ops) && Outcomes(ops) == FifoOutcomes(ops)
  {
    if ops != [] {
      var init := ops[..|ops| - 1];
      forall i | 0 <= i < |init| ensures |Fifo(init[..i])| + BLOCK_SIZE < HALF {
        assert init[..i] == ops[..i];
      }
      IdealBelow(init);
      assert |Fifo(ops[..|ops| - 1])| + BLOCK_SIZE < HALF;
    }
  }

  // ---- A queue of 2^63 elements

  function PutMany<T>(q: Queue<T>, x: T, n: nat): Queue<T> {
    if n == 0 then q else Put(PutMany(q, x, n - 1), x)
  }

  function TakeMany<T>(q: Queue<T>, n: nat): Queue<T> {
    if n == 0 then q else Take(TakeMany(q, n - 1))
  }

  /** Elements go in while the guard passes. */
  lemma {:induction false} Grows<T>(q: Queue<T>, x: T, n: nat)
    requires q.enqueued - |q.contents| < BLOCK_SIZE * (q.first + 1) && |q.contents| + n + BLOCK_SIZE <= HALF
    ensures var r := PutMany(q, x, n);
            && |r.contents| == |q.contents| + n && r.enqueued == q.enqueued + n && r.first == q.first
            && r.blocks >= q.blocks && (q.enqueued == 0 && n > 0 ==> r.blocks > 0)
  {
    if n > 0 {
      Grows(q, x, n - 1);
    }
  }

  /** A started block takes elements unconditionally. */
  lemma {:induction false} FillsBlock<T>(q: Queue<T>, x: T, n: nat)
    requires 0 < q.enqueued % BLOCK_SIZE && q.enqueued % BLOCK_SIZE + n <= BLOCK_SIZE
    ensures var r := PutMany(q, x, n);
            && |r.contents| == |q.contents| + n && r.enqueued == q.enqueued + n && r.first == q.first
            && r.blocks == q.blocks
  {
    if n > 0 {
      FillsBlock(q, x, n - 1);
      assert (q.enqueued + (n - 1)) % BLOCK_SIZE == q.enqueued % BLOCK_SIZE + (n - 1);
    }
  }

  /** A full tail block is followed by a whole new block if the first element is admitted. */
  lemma StartsBlock<T>(q: Queue<T>, x: T)
    requires q.enqueued % BLOCK_SIZE == 0 && Admits(q)
    ensures var r := PutMany(Put(q, x), x, BLOCK_SIZE - 1);
            && |r.contents| == |q.contents| + BLOCK_SIZE && r.enqueued == q.enqueued + BLOCK_SIZE
            && r.first == Put(q, x).first && r.blocks == Put(q, x).blocks
  {
    assert (q.enqueued + 1) % BLOCK_SIZE == 1;
    FillsBlock(Put(q, x), x, BLOCK_SIZE - 1);
  }

  lemma {:induction false} Drains<T>(q: Queue<T>, n: nat)
    requires n <= |q.contents| < HALF
    ensures TakeMany(q, n) == q.(contents := q.contents[n..])
  {
    if n > 0 {
      Drains(q, n - 1);
      assert q.contents[n - 1..][1..] == q.contents[n..];
    }
  }

  lemma {:induction false} AfterPuts<T>(ops: seq<Operation<T>>, x: T, n: nat)
    ensures After(ops + Puts(x, n)) == PutMany(After(ops), x, n)
  {
    var all := ops + Puts(x, n);
    if n == 0 {
      assert all == ops;
    } else {
      AfterPuts(ops, x, n - 1);
      assert all[..|all| - 1] == ops + Puts(x, n - 1);
    }
  }

  lemma {:induction false} AfterTakes<T>(ops: seq<Operation<T>>, n: nat)
    ensures After(ops + Takes(n)) == TakeMany(After(ops), n)
  {
    var all := ops + Takes(n);
    if n == 0 {
      assert all == ops;
    } else {
      AfterTakes(ops, n - 1);
      assert all[..|all| - 1] == ops + Takes(n - 1);
    }
  }

  function Puts<T>(x: T, n: nat): seq<Operation<T>> {
    seq(n, _ => Enqueue(x))
  }

  function Takes<T>(n: nat): seq<Operation<T>> {
    seq(n, _ => Dequeue)
  }

  /** The states on the way: fill up, take one to let another block in, empty the oldest block, reuse it. */
  lemma FullStates<T>(x: T) returns (q1: Queue<T>, q2: Queue<T>, q3: Queue<T>, q4: Queue<T>, q5: Queue<T>)
    ensures q1 == PutMany(Empty(), x, HALF - BLOCK_SIZE)
    ensures q2 == TakeMany(q1, 1)
    ensures q3 == PutMany(Put(q2, x), x, BLOCK_SIZE - 1)
    ensures q4 == TakeMany(q3, BLOCK_SIZE - 1)
    ensures q5 == PutMany(Put(q4, x), x, BLOCK_SIZE - 1)
    ensures |q5.contents| == HALF
  {
    var size := BLOCK_SIZE;
    q1 := PutMany(Empty(), x, HALF - size);
    Grows(Empty<T>(), x, HALF - size);
    q2 := TakeMany(q1, 1);
    Drains(q1, 1);
    q3 := PutMany(Put(q2, x), x, size - 1);
    StartsBlock(q2, x);
    q4 := TakeMany(q3, size - 1);
    Drains(q3, size - 1);
    q5 := PutMany(Put(q4, x), x, size - 1);
    StartsBlock(q4, x);
  }

  /** There is a run after which 2^63 elements are queued and nothing can be taken. */
  lemma FullQueueLooksEmpty<T>(x: T) returns (ops: seq<Operation<T>>)
    ensures |After(ops).contents| == HALF && Result(After(ops), Dequeue) == Nothing
    ensures Take(After(ops)) == After(ops)
  {
    var q1, q2, q3, q4, q5 := FullStates(x);
    var size := BLOCK_SIZE;
    var ops1 := [] + Puts(x, HALF - size);
    AfterPuts([], x, HALF - size);
    var ops2 := ops1 + Takes(1);
    AfterTakes(ops1, 1);
    var ops3 := ops2 + Puts(x, 1) + Puts(x, size - 1);
    OneMorePut(ops2, x, size - 1);
    var ops4 := ops3 + Takes(size - 1);
    AfterTakes(ops3, size - 1);
    ops := ops4 + Puts(x, 1) + Puts(x, size - 1);
    OneMorePut(ops4, x, size - 1);
  }

  lemma OneMorePut<T>(ops: seq<Operation<T>>, x: T, n: nat)
    ensures After(ops + Puts(x, 1) + Puts(x, n)) == PutMany(Put(After(ops), x), x, n)
  {
    AfterPuts(ops, x, 1);
    assert PutMany(After(ops), x, 1) == Put(PutMany(After(ops), x, 0), x);
    AfterPuts(ops + Puts(x, 1), x, n);
  }
}
