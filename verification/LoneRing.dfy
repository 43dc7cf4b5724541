/**
  Progress on the block ring (common/concurrentqueue.h, `ExplicitProducer`): from every state that the step system of
  module ConcurrentRing reaches, wherever the other threads stopped, an enqueue or dequeue that runs alone ends, and
  this is exactly what it does.
 */
module LoneRing {
  import opened ConcurrentRing

  function Repeat<T>(act: Action<T>, k: nat): seq<Action<T>> {
    if k == 0 then [] else [act] + Repeat(act, k - 1)
  }

  lemma Prepend<T>(s: State<T>, act: Action<T>, rest: seq<Action<T>>)
    requires Enabled(s, act) && Runs(Apply(s, act), rest)
    ensures Runs(s, [act] + rest) && After(s, [act] + rest) == After(Apply(s, act), rest)
  {
    assert ([act] + rest)[1..] == rest;
  }

  // ---- A consumer

  function StepsLeft(pc: Consumer): nat {
    match pc
    case Idle => 0
    case Claimed(_) => 6
    case HaveIndex(_, _) => 5
    case HaveFront(_, _, _, _) => 4
    case HaveBase(_, _, _, _, _) => 3
    case HaveBlock(_, _) => 2
    case Flagging(_, _) => 1
  }

  /** Neither the producer nor what it has published differs. */
  predicate SameQueue<T(==)>(s: State<T>, s': State<T>) {
    && s'.producer == s.producer && s'.published == s.published && s'.claimed == s.claimed
    && s'.values == s.values && s'.ring == s.ring && s'.first == s.first && s'.arrays == s.arrays
  }

  /** The consumer t has taken element i and flagged it. */
  ghost predicate Took<T>(s: State<T>, s': State<T>, t: nat, i: nat) {
    && t < |s.consumers| && i < |s.values|
    && SameQueue(s, s') && s'.consumers == s.consumers[t := Idle]
    && s'.done == s.done + {i} && s'.taken == s.taken[i := s.values[i]]
  }

  /** One step of a consumer that is not the last. */
  ghost predicate Nearer<T>(s: State<T>, s': State<T>, t: nat, i: nat) {
    && t < |s.consumers| && i < |s.values| && Holds(s.consumers[t])
    && SameQueue(s, s') && |s'.consumers| == |s.consumers| && s'.consumers == s.consumers[t := s'.consumers[t]]
    && Holds(s'.consumers[t]) && s'.consumers[t].i == i
    && StepsLeft(s'.consumers[t]) == StepsLeft(s.consumers[t]) - 1
    && s'.done == s.done && (s'.taken == s.taken || s'.taken == s.taken[i := s.values[i]])
  }

  lemma ConsumeOnce<T>(s: State<T>, t: nat)
    requires Inv(s) && t < |s.consumers| && Holds(s.consumers[t])
    ensures Enabled(s, Consume(t)) && Inv(Apply(s, Consume(t)))
    ensures var i, s' := s.consumers[t].i, Apply(s, Consume(t));
            if s.consumers[t].Flagging? then Took(s, s', t, i) else Nearer(s, s', t, i)
  {
    var i := s.consumers[t].i;
    assert ConsumerOk(s, s.consumers[t]);
    ConsumeInv(s, t);
    HeldInRing(s, s.consumers[t]);
    if s.consumers[t].HaveBlock? {
      HeldCell(s, i, s.consumers[t].b);
    } else if s.consumers[t].Flagging? {
      assert s.taken == s.taken[i := s.values[i]];
    }
  }

  lemma TookLater<T>(s: State<T>, s': State<T>, end: State<T>, t: nat, i: nat)
    requires Nearer(s, s', t, i) && Took(s', end, t, i)
    ensures Took(s, end, t, i)
  {
  }

  lemma {:induction false} ConsumeAlone<T>(s: State<T>, t: nat)
    requires Inv(s) && t < |s.consumers| && Holds(s.consumers[t])
    ensures var run := Repeat(Consume(t), StepsLeft(s.consumers[t]));
            Runs(s, run) && Took(s, After(s, run), t, s.consumers[t].i)
    decreases StepsLeft(s.consumers[t])
  {
    var i, k := s.consumers[t].i, StepsLeft(s.consumers[t]);
    ConsumeOnce(s, t);
    var s' := Apply(s, Consume(t));
    if !s.consumers[t].Flagging? {
      ConsumeAlone(s', t);
      TookLater(s, s', After(s', Repeat(Consume(t), k - 1)), t, i);
    }
    Prepend(s, Consume(t), Repeat(Consume(t), k - 1));
  }

  /** A consumer with a claimed index, run alone, takes the element enqueued under that index and flags it. */
  lemma LoneConsume<T>(consumers: nat, actions: seq<Action<T>>, t: nat)
    requires Runs(Init(consumers), actions) && t < |After(Init(consumers), actions).consumers|
    requires Holds(After(Init(consumers), actions).consumers[t])
    ensures var s := After(Init(consumers), actions);
            var i, run := s.consumers[t].i, Repeat(Consume(t), StepsLeft(s.consumers[t]));
            && Runs(s, run) && Took(s, After(s, run), t, i)
            && i < |Enqueued(actions)| && After(s, run).taken[i] == Enqueued(actions)[i]
  {
    InitInv<T>(consumers);
    RunInv(Init(consumers), actions);
    PublishedAreEnqueued(consumers, actions);
    ConsumeAlone(After(Init(consumers), actions), t);
  }

  /** As long as an element is unclaimed, a dequeue run alone takes the first of these. */
  lemma LoneTake<T>(consumers: nat, actions: seq<Action<T>>, t: nat)
    requires Runs(Init(consumers), actions)
    requires var s := After(Init(consumers), actions);
             t < |s.consumers| && s.consumers[t].Idle? && s.claimed < s.published
    ensures var s, run := After(Init(consumers), actions), [Claim(t)] + Repeat(Consume(t), 6);
            && Runs(s, run) && s.claimed < |Enqueued(actions)|
            && var s' := After(s, run);
               && s'.taken == s.taken[s.claimed := Enqueued(actions)[s.claimed]] && s'.done == s.done + {s.claimed}
               && s'.claimed == s.claimed + 1 && s'.consumers == s.consumers && s'.published == s.published
  {
    var s := After(Init(consumers), actions);
    InitInv<T>(consumers);
    RunInv(Init(consumers), actions);
    PublishedAreEnqueued(consumers, actions);
    ClaimInv(s, t);
    var s' := Apply(s, Claim(t));
    ConsumeAlone(s', t);
    Prepend(s, Claim(t), Repeat(Consume(t), 6));
    assert s'.consumers[t := Idle] == s.consumers;
  }

  // ---- The producer

  function StepsToGo<T>(pc: Producer<T>): nat {
    match pc
    case Ready => 0
    case Publishing => 1
    case Constructing(_) => 2
    case StoringFront(_, _) => 3
    case WritingBlock(_, _) => 4
    case WritingBase(_, _) => 5
    case Reusing(_) => 6
    case Adding(_) => 6
    case Testing(_, k) => 7 + if k <= SIZE then SIZE - k else 0
  }

  /** All flags of the oldest block from the k-th on are set. */
  predicate FlagsFrom<T>(s: State<T>, k: nat)
    requires Shaped(s)
  {
    s.ring != [] && forall o | k <= o < SIZE :: s.blocks[s.ring[0]].flags[o]
  }

  /** The enqueue under way will move the oldest block to the end. */
  predicate WillReuse<T>(s: State<T>)
    requires Shaped(s)
  {
    s.producer.Reusing? || (s.producer.Testing? && FlagsFrom(s, s.producer.k))
  }

  /** The enqueue under way will add a block. */
  predicate WillAdd<T>(s: State<T>)
    requires Shaped(s)
  {
    s.producer.Adding? || (s.producer.Testing? && !FlagsFrom(s, s.producer.k))
  }

  /** The ring after the enqueue under way. */
  function RingThen<T>(s: State<T>): seq<nat>
    requires Shaped(s)
  {
    if WillAdd(s) then s.ring + [|s.blocks|]
    else if WillReuse(s) && s.ring != [] then s.ring[1..] + [s.ring[0]]
    else s.ring
  }

  function BlocksThen<T>(s: State<T>): nat
    requires Shaped(s)
  {
    |s.blocks| + if WillAdd(s) then 1 else 0
  }

  function IndexesThen<T>(s: State<T>): nat
    requires Shaped(s)
  {
    |s.arrays| + if WillAdd(s) && |s.ring| == |s.arrays[Now(s)].entries| then 1 else 0
  }

  /** What the producer's own steps do not change. */
  ghost predicate SameFuture<T>(s: State<T>, s': State<T>)
    requires Shaped(s) && Shaped(s')
  {
    && s'.consumers == s.consumers && s'.claimed == s.claimed && s'.done == s.done && s'.taken == s.taken
    && s'.values + InFlight(s'.producer) == s.values + InFlight(s.producer)
    && s'.published + (if s'.producer.Ready? then 0 else 1) == s.published + (if s.producer.Ready? then 0 else 1)
    && RingThen(s') == RingThen(s) && BlocksThen(s') == BlocksThen(s) && IndexesThen(s') == IndexesThen(s)
  }

  lemma TestOnce<T>(s: State<T>)
    requires Inv(s) && s.producer.Testing?
    ensures Enabled(s, Produce) && Shaped(ProducerStep(s)) && SameFuture(s, ProducerStep(s))
  {
    var k, s' := s.producer.k, ProducerStep(s);
    if k < SIZE {
      assert FlagsFrom(s, k) <==> s.blocks[s.ring[0]].flags[k] && FlagsFrom(s, k + 1);
    }
  }

  lemma ChangeOnce<T>(s: State<T>)
    requires Shaped(s) && ProducerEnabled(s) && !s.producer.Testing? && |s.ring| <= |s.arrays[Now(s)].entries|
    requires Shaped(ProducerStep(s))
    ensures SameFuture(s, ProducerStep(s))
  {
    StepValues(s, Produce);
  }

  lemma ProduceOnce<T>(s: State<T>)
    requires Inv(s) && !s.producer.Ready?
    ensures Enabled(s, Produce) && Inv(ProducerStep(s)) && SameFuture(s, ProducerStep(s))
    ensures StepsToGo(ProducerStep(s).producer) < StepsToGo(s.producer)
  {
    ProduceInv(s);
    if s.producer.Testing? {
      TestOnce(s);
    } else {
      ChangeOnce(s);
    }
  }

  lemma {:induction false} ProduceAlone<T>(s: State<T>) returns (k: nat)
    requires Inv(s)
    ensures Runs(s, Repeat(Produce, k)) && k <= StepsToGo(s.producer)
    ensures var s' := After(s, Repeat(Produce, k));
            Inv(s') && s'.producer.Ready? && SameFuture(s, s')
    decreases StepsToGo(s.producer)
  {
    if s.producer.Ready? {
      k := 0;
    } else {
      ProduceOnce(s);
      k := ProduceAlone(ProducerStep(s));
      Prepend(s, Produce, Repeat(Produce, k));
      k := k + 1;
    }
  }

  /** Every element of the oldest block was taken and flagged. */
  ghost predicate OldestDone<T>(s: State<T>) {
    s.ring != [] && forall j | SIZE * s.first <= j < SIZE * (s.first + 1) :: j in s.done
  }

  lemma OldestFlags<T>(s: State<T>)
    requires Inv(s)
    ensures FlagsFrom(s, 0) <==> OldestDone(s)
  {
    if s.ring != [] {
      var b := s.blocks[s.ring[0]];
      assert BlockOk(b, s.values, s.moved, s.done, s.first + 0);
      if FlagsFrom(s, 0) {
        forall j | SIZE * s.first <= j < SIZE * (s.first + 1) ensures j in s.done {
          assert CellOk(b, j - SIZE * s.first, s.values, s.moved, s.done, s.first);
        }
      }
      if OldestDone(s) {
        forall o | 0 <= o < SIZE ensures b.flags[o] {
          assert CellOk(b, o, s.values, s.moved, s.done, s.first);
          assert SIZE * s.first + o in s.done;
        }
      }
    }
  }

  /** What an enqueue has done when it is over. */
  ghost predicate Put<T>(s: State<T>, s': State<T>, x: T)
    requires Shaped(s)
  {
    var full := s.published % SIZE == 0;
    var adds := full && !OldestDone(s);
    && s'.producer.Ready? && s'.values == s.values + [x] && s'.published == s.published + 1
    && s'.consumers == s.consumers && s'.claimed == s.claimed && s'.done == s.done && s'.taken == s.taken
    && |s'.blocks| == |s.blocks| + (if adds then 1 else 0)
    && s'.ring == (if adds then s.ring + [|s.blocks|] else if full then s.ring[1..] + [s.ring[0]] else s.ring)
    && |s'.arrays| == |s.arrays| + if adds && |s.ring| == |s.arrays[Now(s)].entries| then 1 else 0
  }

  /**
    An enqueue that runs alone ends with the element published. A block is added exactly if the tail block is full and
    an element of the oldest block is not yet flagged; otherwise a full ring's oldest block is reused. The index grows
    exactly if a block is added to a ring that fills it.
   */
  lemma LoneEnqueue<T>(consumers: nat, actions: seq<Action<T>>, x: T) returns (k: nat)
    requires Runs(Init(consumers), actions) && After(Init(consumers), actions).producer.Ready?
    ensures k <= SIZE + 7 && Runs(After(Init(consumers), actions), [Enqueue(x)] + Repeat(Produce, k))
    ensures var s := After(Init(consumers), actions);
            Shaped(s) && Put(s, After(s, [Enqueue(x)] + Repeat(Produce, k)), x)
  {
    InitInv<T>(consumers);
    RunInv(Init(consumers), actions);
    k := EnqueueAlone(After(Init(consumers), actions), x);
  }

  lemma EnqueueAlone<T>(s: State<T>, x: T) returns (k: nat)
    requires Inv(s) && s.producer.Ready?
    ensures k <= SIZE + 7 && Runs(s, [Enqueue(x)] + Repeat(Produce, k))
    ensures Put(s, After(s, [Enqueue(x)] + Repeat(Produce, k)), x)
  {
    var s' := Apply(s, Enqueue(x));
    EnqueueInv(s, x);
    OldestFlags(s);
    k := ProduceAlone(s');
    Prepend(s, Enqueue(x), Repeat(Produce, k));
    BeginsPut(s, x, After(s', Repeat(Produce, k)));
  }

  lemma BeginsPut<T>(s: State<T>, x: T, end: State<T>)
    requires Inv(s) && s.producer.Ready? && Inv(end) && end.producer.Ready?
    requires Shaped(Apply(s, Enqueue(x))) && SameFuture(Apply(s, Enqueue(x)), end)
    requires FlagsFrom(s, 0) <==> OldestDone(s)
    ensures Put(s, end, x)
  {
    var s' := Apply(s, Enqueue(x));
    assert s'.producer.Testing? ==> (FlagsFrom(s', 0) <==> FlagsFrom(s, 0));
    assert InFlight(s'.producer) == [x];
    assert end.values + [] == end.values;
  }
}
