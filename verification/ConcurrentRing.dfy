/**
  The block ring under concurrency (common/concurrentqueue.h, `ExplicitProducer` enqueue and dequeue): one producer and
  any number of consumers, one load or store of shared memory per step. Consumers sit between claiming an index, finding
  its block through a possibly outdated index array, moving the element out, and flagging the slot; meanwhile the
  producer tests flags, reuses blocks, adds blocks, doubles the index and publishes elements.

  A claim takes the next index below the tail, which is what the ticket protocol hands out (ClaimsInOrder and
  ClaimsBelowTail of module DequeueTickets). Indices are unbounded here. `values`, `moved`, `done`, `taken`, `metas` and
  the block number kept by a consumer are history; no step depends on them.
 */
module ConcurrentRing {
  import opened Arithmetic
  import opened Wrappers

  const SIZE: nat := 32

  datatype Block<T> = Block(elements: seq<Option<T>>, flags: seq<bool>)

  datatype Entry = Entry(base: nat, block: nat)

  /** An index array with its published front. Outdated arrays stay readable. */
  datatype Index = Index(entries: seq<Entry>, front: nat)

  /** Block number n is listed in slot (n + shift) modulo the size; the numbers below `high` have been listed. */
  datatype Meta = Meta(shift: nat, high: nat)

  datatype Producer<T> =
    | Ready
    | Testing(x: T, k: nat)
    | Reusing(x: T)
    | Adding(x: T)
    | WritingBase(x: T, b: nat)
    | WritingBlock(x: T, b: nat)
    | StoringFront(x: T, b: nat)
    | Constructing(x: T)
    | Publishing

  datatype Consumer =
    | Idle
    | Claimed(i: nat)
    | HaveIndex(i: nat, a: nat)
    | HaveFront(i: nat, a: nat, front: nat, n: nat)
    | HaveBase(i: nat, a: nat, front: nat, base: nat, n: nat)
    | HaveBlock(i: nat, b: nat)
    | Flagging(i: nat, b: nat)

  /**
    `ring`: the linked blocks, oldest first, from block number `first` on. The last index array is the current one;
    `next` is the slot in it to write next (`pr_blockIndexFront`).
   */
  datatype State<T> = State(
    blocks: seq<Block<T>>,
    ring: seq<nat>,
    first: nat,
    arrays: seq<Index>,
    next: nat,
    metas: seq<Meta>,
    published: nat,
    claimed: nat,
    values: seq<T>,
    moved: set<nat>,
    done: set<nat>,
    taken: map<nat, T>,
    producer: Producer<T>,
    consumers: seq<Consumer>)

  datatype Action<T> = Enqueue(x: T) | Produce | Claim(t: nat) | Consume(t: nat)

  function Init<T>(consumers: nat): State<T> {
    State(
      [], [], 0, [Index(seq(SIZE, _ => Entry(0, 0)), 0)], 0, [Meta(0, 0)], 0, 0, [], {}, {}, map[], Ready,
      seq(consumers, _ => Idle))
  }

  /** The number of the next block. */
  function Top<T>(s: State<T>): nat {
    s.first + |s.ring|
  }

  function Slot(n: nat, shift: nat, size: nat): (slot: nat)
    requires size > 0
    ensures slot < size
  {
    (n + shift) % size
  }

  /** The current index array. */
  function Now<T>(s: State<T>): nat
    requires s.arrays != []
  {
    |s.arrays| - 1
  }

  // ---- Steps

  predicate Shaped<T>(s: State<T>) {
    && s.arrays != [] && |s.metas| == |s.arrays|
    && (forall a | 0 <= a < |s.arrays| :: s.arrays[a].entries != [])
    && s.next < |s.arrays[Now(s)].entries|
    && (forall b | 0 <= b < |s.blocks| :: |s.blocks[b].elements| == SIZE == |s.blocks[b].flags|)
    && (forall r | 0 <= r < |s.ring| :: s.ring[r] < |s.blocks|)
  }

  /** The array positions and blocks a step touches exist. */
  predicate Enabled<T>(s: State<T>, act: Action<T>) {
    && Shaped(s)
    && match act
       case Enqueue(_) => s.producer.Ready?
       case Produce => ProducerEnabled(s)
       case Claim(t) => t < |s.consumers| && s.consumers[t].Idle? && s.claimed < s.published
       case Consume(t) => t < |s.consumers| && ConsumerEnabled(s, s.consumers[t])
  }

  predicate ProducerEnabled<T>(s: State<T>) {
    match s.producer
    case Ready => false
    case Testing(_, k) => s.ring != [] && k <= SIZE
    case Reusing(_) => s.ring != []
    case Constructing(_) => s.ring != []
    case _ => true
  }

  predicate ConsumerEnabled<T>(s: State<T>, pc: Consumer)
    requires Shaped(s)
  {
    match pc
    case Idle => false
    case Claimed(_) => true
    case HaveIndex(_, a) => a < |s.arrays|
    case HaveFront(_, a, front, _) => a < |s.arrays| && front < |s.arrays[a].entries|
    case HaveBase(_, a, _, _, _) => a < |s.arrays|
    case HaveBlock(i, b) => b < |s.blocks| && s.blocks[b].elements[i % SIZE].Some?
    case Flagging(_, b) => b < |s.blocks|
  }

  function SetProducer<T>(s: State<T>, pc: Producer<T>): State<T> {
    s.(producer := pc)
  }

  function SetConsumer<T>(s: State<T>, t: nat, pc: Consumer): State<T>
    requires t < |s.consumers|
  {
    s.(consumers := s.consumers[t := pc])
  }

  function SetEntry<T>(s: State<T>, slot: nat, e: Entry): State<T>
    requires Shaped(s) && slot < |s.arrays[Now(s)].entries|
  {
    var a := Now(s);
    s.(arrays := s.arrays[a := s.arrays[a].(entries := s.arrays[a].entries[slot := e])])
  }

  function Apply<T>(s: State<T>, act: Action<T>): State<T>
    requires Enabled(s, act)
  {
    match act
    case Enqueue(x) =>
      if s.published % SIZE != 0 then SetProducer(s, Constructing(x))
      else if s.ring == [] then SetProducer(s, Adding(x))
      else SetProducer(s, Testing(x, 0))
    case Produce => ProducerStep(s)
    case Claim(t) => SetConsumer(s, t, Claimed(s.claimed)).(claimed := s.claimed + 1)
    case Consume(t) => ConsumerStep(s, t)
  }

  function ProducerStep<T>(s: State<T>): State<T>
    requires Shaped(s) && ProducerEnabled(s)
  {
    match s.producer
    case Testing(x, k) =>
      if k == SIZE then SetProducer(s, Reusing(x))
      else if s.blocks[s.ring[0]].flags[k] then SetProducer(s, Testing(x, k + 1))
      else SetProducer(s, Adding(x))
    case Reusing(x) => Reused(s, x)
    case Adding(x) => Added(Grown(s), x)
    case WritingBase(x, b) =>
      SetProducer(SetEntry(s, s.next, s.arrays[Now(s)].entries[s.next].(base := s.published)), WritingBlock(x, b))
    case WritingBlock(x, b) =>
      SetProducer(SetEntry(s, s.next, s.arrays[Now(s)].entries[s.next].(block := b)), StoringFront(x, b))
    case StoringFront(x, b) =>
      var a := Now(s);
      s.(arrays := s.arrays[a := s.arrays[a].(front := s.next)],
         next := (s.next + 1) % |s.arrays[a].entries|,
         metas := s.metas[a := s.metas[a].(high := Top(s))],
         producer := Constructing(x))
    case Constructing(x) =>
      var b, o := s.ring[|s.ring| - 1], s.published % SIZE;
      s.(blocks := s.blocks[b := s.blocks[b].(elements := s.blocks[b].elements[o := Some(x)])],
         values := s.values + [x], producer := Publishing)
    case _ => s.(published := s.published + 1, producer := Ready)
  }

  /** The oldest block, all of whose flags were seen set, becomes the newest; its flags are reset. */
  function Reused<T>(s: State<T>, x: T): State<T>
    requires Shaped(s) && s.ring != []
  {
    var b := s.ring[0];
    s.(blocks := s.blocks[b := s.blocks[b].(flags := seq(SIZE, _ => false))],
       ring := s.ring[1..] + [b], first := s.first + 1, producer := WritingBase(x, b))
  }

  /** A full index is copied, oldest entry first, into an array twice the size, which becomes the current one. */
  function Grown<T>(s: State<T>): State<T>
    requires Shaped(s)
  {
    var entries, k := s.arrays[Now(s)].entries, |s.ring|;
    if k < |entries| then s
    else
      var larger :=
        seq(2 * |entries|, j => if 0 <= j < |entries| then entries[Slot(s.next, j, |entries|)] else Entry(0, 0));
      s.(arrays := s.arrays + [Index(larger, |entries| - 1)], next := |entries|,
         metas := s.metas + [Meta(GrownShift(|entries|, s.first), s.metas[Now(s)].high)])
  }

  /** Puts block number `first` into slot 0 of an array of 2 * size slots. */
  function GrownShift(size: nat, first: nat): nat
    requires size > 0
  {
    MulMonotone(0, first, 2 * size - 1);
    first * (2 * size - 1)
  }

  /** A fresh block becomes the newest one. */
  function Added<T>(s: State<T>, x: T): State<T> {
    var b := |s.blocks|;
    s.(blocks := s.blocks + [Block(seq(SIZE, _ => None), seq(SIZE, _ => false))],
       ring := s.ring + [b], producer := WritingBase(x, b))
  }

  function ConsumerStep<T>(s: State<T>, t: nat): State<T>
    requires Shaped(s) && t < |s.consumers| && ConsumerEnabled(s, s.consumers[t])
  {
    match s.consumers[t]
    case Claimed(i) => SetConsumer(s, t, HaveIndex(i, Now(s)))
    case HaveIndex(i, a) =>
      var n := if s.metas[a].high > 0 then s.metas[a].high - 1 else 0;
      SetConsumer(s, t, HaveFront(i, a, s.arrays[a].front, n))
    case HaveFront(i, a, front, n) => SetConsumer(s, t, HaveBase(i, a, front, s.arrays[a].entries[front].base, n))
    case HaveBase(i, a, front, base, _) =>
      var behind := (i - i % SIZE - base) / SIZE;
      var entries := s.arrays[a].entries;
      SetConsumer(s, t, HaveBlock(i, entries[(front + behind) % |entries|].block))
    case HaveBlock(i, b) =>
      var o := i % SIZE;
      SetConsumer(s, t, Flagging(i, b))
      .(blocks := s.blocks[b := s.blocks[b].(elements := s.blocks[b].elements[o := None])],
        moved := s.moved + {i}, taken := s.taken[i := s.blocks[b].elements[o].value])
    case Flagging(i, b) =>
      SetConsumer(s, t, Idle)
      .(blocks := s.blocks[b := s.blocks[b].(flags := s.blocks[b].flags[i % SIZE := true])],
        done := s.done + {i})
    case Idle => s
  }

  ghost predicate Runs<T>(s: State<T>, actions: seq<Action<T>>)
    decreases |actions|
  {
    actions == [] || (Enabled(s, actions[0]) && Runs(Apply(s, actions[0]), actions[1..]))
  }

  ghost function After<T>(s: State<T>, actions: seq<Action<T>>): State<T>
    requires Runs(s, actions)
    decreases |actions|
  {
    if actions == [] then s else After(Apply(s, actions[0]), actions[1..])
  }

  // ---- The invariant

  /** What the cell of the j-th element holds. */
  function Cell<T>(values: seq<T>, moved: set<nat>, j: nat): Option<T> {
    if j < |values| && j !in moved then Some(values[j]) else None
  }

  /** Offset o of a block with number n. */
  ghost predicate CellOk<T>(b: Block<T>, o: nat, values: seq<T>, moved: set<nat>, done: set<nat>, n: nat) {
    && o < |b.elements| && o < |b.flags|
    && b.elements[o] == Cell(values, moved, SIZE * n + o)
    && (b.flags[o] <==> SIZE * n + o in done)
  }

  /** Block number n. */
  ghost predicate BlockOk<T>(b: Block<T>, values: seq<T>, moved: set<nat>, done: set<nat>, n: nat) {
    forall o | 0 <= o < SIZE :: CellOk(b, o, values, moved, done, n)
  }

  ghost predicate RingOk<T>(s: State<T>)
    requires Shaped(s)
  {
    && (forall q, r | 0 <= q < r < |s.ring| :: s.ring[q] != s.ring[r])
    && (forall r | 0 <= r < |s.ring| :: BlockOk(s.blocks[s.ring[r]], s.values, s.moved, s.done, s.first + r))
  }

  /** Every element of the blocks reused so far is done; done elements were moved, moved ones claimed. */
  ghost predicate SetsOk<T>(s: State<T>) {
    && (forall j | 0 <= j < SIZE * s.first :: j in s.done)
    && s.done <= s.moved
    && (forall j | j in s.moved :: j < s.claimed)
    && s.claimed <= s.published
    && s.taken.Keys == s.moved
    && (forall j | j in s.taken :: j < |s.values| && s.taken[j] == s.values[j])
  }

  /** The slot of block number n names its block. */
  ghost predicate Listed<T>(entries: seq<Entry>, shift: nat, s: State<T>, n: nat)
    requires entries != [] && s.first <= n < Top(s)
  {
    entries[Slot(n, shift, |entries|)] == Entry(SIZE * n, s.ring[n - s.first])
  }

  ghost predicate ArrayOk<T>(s: State<T>, a: nat)
    requires Shaped(s) && a < |s.arrays|
  {
    var entries, meta := s.arrays[a].entries, s.metas[a];
    && meta.high <= Top(s)
    && (meta.high > 0 ==> s.arrays[a].front == Slot(meta.high - 1, meta.shift, |entries|))
    && (forall n | s.first <= n < meta.high :: Listed(entries, meta.shift, s, n))
  }

  /** A block has joined the ring and is not listed yet. */
  predicate Joining<T>(pc: Producer<T>) {
    pc.WritingBase? || pc.WritingBlock? || pc.StoringFront?
  }

  ghost predicate NowOk<T>(s: State<T>)
    requires Shaped(s)
  {
    var entries, meta := s.arrays[Now(s)].entries, s.metas[Now(s)];
    && |s.ring| <= |entries|
    && Top(s) == meta.high + (if Joining(s.producer) then 1 else 0)
    && s.next == Slot(meta.high, meta.shift, |entries|)
  }

  ghost predicate ProducerOk<T>(s: State<T>)
    requires Shaped(s)
  {
    && (s.ring == [] ==> s.first == 0)
    && |s.values| == s.published + (if s.producer.Publishing? then 1 else 0)
    && match s.producer
       case Ready => s.published <= SIZE * Top(s) < s.published + SIZE
       case Testing(_, k) =>
         && s.published == SIZE * Top(s) && s.ring != [] && k <= SIZE
         && forall o | 0 <= o < k :: s.blocks[s.ring[0]].flags[o]
       case Reusing(_) =>
         && s.published == SIZE * Top(s) && s.ring != []
         && forall o | 0 <= o < SIZE :: s.blocks[s.ring[0]].flags[o]
       case Adding(_) => s.published == SIZE * Top(s)
       case WritingBase(_, b) => NewestIs(s, b)
       case WritingBlock(_, b) => NewestIs(s, b) && s.arrays[Now(s)].entries[s.next].base == s.published
       case StoringFront(_, b) => NewestIs(s, b) && s.arrays[Now(s)].entries[s.next] == Entry(s.published, b)
       case _ => s.ring != [] && SIZE * (Top(s) - 1) <= s.published < SIZE * Top(s)
  }

  predicate NewestIs<T>(s: State<T>, b: nat) {
    s.ring != [] && b == s.ring[|s.ring| - 1] && s.published == SIZE * (Top(s) - 1)
  }

  predicate Holds(pc: Consumer) {
    !pc.Idle?
  }

  ghost predicate ConsumerOk<T>(s: State<T>, pc: Consumer)
    requires Shaped(s)
  {
    Holds(pc) ==>
      && pc.i < s.claimed && pc.i !in s.done && (pc.i in s.moved <==> pc.Flagging?)
      && match pc
         case HaveIndex(i, a) => a < |s.arrays| && i / SIZE < s.metas[a].high
         case HaveFront(i, a, front, n) => Found(s, i, a, front, n)
         case HaveBase(i, a, front, base, n) => Found(s, i, a, front, n) && base == SIZE * n
         case HaveBlock(i, b) => InBlock(s, i, b)
         case Flagging(i, b) => InBlock(s, i, b)
         case _ => true
  }

  /** The front read earlier is the slot of block number n, which is not before that of element i. */
  ghost predicate Found<T>(s: State<T>, i: nat, a: nat, front: nat, n: nat)
    requires Shaped(s)
  {
    && a < |s.arrays| && i / SIZE <= n < s.metas[a].high
    && front == Slot(n, s.metas[a].shift, |s.arrays[a].entries|)
  }

  /** b is the block of element i. */
  ghost predicate InBlock<T>(s: State<T>, i: nat, b: nat) {
    s.first <= i / SIZE < Top(s) && b == s.ring[i / SIZE - s.first]
  }

  ghost predicate Separate(consumers: seq<Consumer>) {
    forall t, u | 0 <= t < u < |consumers| && Holds(consumers[t]) && Holds(consumers[u]) ::
      consumers[t].i != consumers[u].i
  }

  ghost predicate Inv<T>(s: State<T>) {
    && Shaped(s)
    && RingOk(s)
    && SetsOk(s)
    && (forall a | 0 <= a < |s.arrays| :: ArrayOk(s, a))
    && NowOk(s)
    && ProducerOk(s)
    && (forall t | 0 <= t < |s.consumers| :: ConsumerOk(s, s.consumers[t]))
    && Separate(s.consumers)
  }

  lemma InitInv<T>(consumers: nat)
    ensures Inv<T>(Init(consumers))
  {
  }

  // ---- Facts about held elements

  /** A held element lies in a block of the ring. */
  lemma HeldInRing<T>(s: State<T>, pc: Consumer)
    requires Inv(s) && ConsumerOk(s, pc) && Holds(pc)
    ensures s.first <= pc.i / SIZE < Top(s) && pc.i < s.published
    ensures pc.i / SIZE < s.metas[Now(s)].high
  {
    assert pc.i >= SIZE * s.first;
  }

  lemma SlotBack(n: nat, q: nat, shift: nat, size: nat)
    requires size > 0
    ensures (Slot(n, shift, size) + (q - n)) % size == Slot(q, shift, size)
  {
    var laps := (n + shift) / size;
    assert Slot(n, shift, size) + (q - n) == (q + shift) + (0 - laps) * size;
    ModShift(q + shift, 0 - laps, size);
  }

  lemma SlotNext(n: nat, shift: nat, size: nat)
    requires size > 0
    ensures (Slot(n, shift, size) + 1) % size == Slot(n + 1, shift, size)
  {
    SlotBack(n, n + 1, shift, size);
  }

  // ---- What a step leaves alone

  /** Index arrays, ring and history only grow from s to s', and nothing is moved or flagged. */
  ghost predicate Grows<T>(s: State<T>, s': State<T>)
    requires Shaped(s) && Shaped(s')
  {
    && s'.done == s.done && s'.moved == s.moved && s.claimed <= s'.claimed
    && s'.first == s.first && |s.ring| <= |s'.ring| && s'.ring[..|s.ring|] == s.ring
    && |s.arrays| <= |s'.arrays|
    && forall a | 0 <= a < |s.arrays| ::
         && |s'.arrays[a].entries| == |s.arrays[a].entries|
         && s'.metas[a].shift == s.metas[a].shift && s.metas[a].high <= s'.metas[a].high
  }

  lemma ConsumerKept<T>(s: State<T>, s': State<T>, pc: Consumer)
    requires Shaped(s) && Shaped(s') && Grows(s, s') && ConsumerOk(s, pc)
    ensures ConsumerOk(s', pc)
  {
    if pc.HaveBlock? || pc.Flagging? {
      assert s'.ring[..|s.ring|][pc.i / SIZE - s.first] == s.ring[pc.i / SIZE - s.first];
    }
  }

  lemma ConsumersKept<T>(s: State<T>, s': State<T>)
    requires Inv(s) && Shaped(s') && Grows(s, s') && s'.consumers == s.consumers
    ensures forall t | 0 <= t < |s'.consumers| :: ConsumerOk(s', s'.consumers[t])
  {
    forall t | 0 <= t < |s'.consumers| ensures ConsumerOk(s', s'.consumers[t]) {
      ConsumerKept(s, s', s.consumers[t]);
    }
  }

  lemma RingKept<T>(s: State<T>, s': State<T>)
    requires Inv(s) && Shaped(s') && s'.blocks == s.blocks && s'.ring == s.ring && s'.first == s.first
    requires s'.values == s.values && s'.moved == s.moved && s'.done == s.done
    ensures RingOk(s')
  {
    forall r | 0 <= r < |s'.ring| ensures BlockOk(s'.blocks[s'.ring[r]], s'.values, s'.moved, s'.done, s'.first + r) {
      assert BlockOk(s.blocks[s.ring[r]], s.values, s.moved, s.done, s.first + r);
    }
  }

  /** An index array looks at ring and first only. */
  lemma SameArray<T>(s: State<T>, s': State<T>, a: nat)
    requires Shaped(s) && Shaped(s') && a < |s.arrays| && a < |s'.arrays| && ArrayOk(s, a)
    requires s'.ring == s.ring && s'.first == s.first && s'.arrays[a] == s.arrays[a] && s'.metas[a] == s.metas[a]
    ensures ArrayOk(s', a)
  {
    var entries, meta := s.arrays[a].entries, s.metas[a];
    forall n | s'.first <= n < meta.high ensures Listed(entries, meta.shift, s', n) {
      assert Listed(entries, meta.shift, s, n);
    }
  }

  /** Only cell contents, flags and the history changed: index arrays are as before. */
  lemma ArraysKept<T>(s: State<T>, s': State<T>)
    requires Shaped(s) && Shaped(s') && forall a | 0 <= a < |s.arrays| :: ArrayOk(s, a)
    requires s'.ring == s.ring && s'.first == s.first && s'.arrays == s.arrays && s'.metas == s.metas
    ensures forall a | 0 <= a < |s'.arrays| :: ArrayOk(s', a)
  {
    forall a | 0 <= a < |s'.arrays| ensures ArrayOk(s', a) {
      SameArray(s, s', a);
    }
  }

  // ---- Consumer steps

  lemma ConsumerMoves<T>(s: State<T>, t: nat, pc: Consumer)
    requires Inv(s) && t < |s.consumers| && Holds(s.consumers[t]) && Holds(pc) && pc.i == s.consumers[t].i
    requires ConsumerOk(s, pc)
    ensures Inv(SetConsumer(s, t, pc))
  {
    var s' := SetConsumer(s, t, pc);
    ArraysKept(s, s');
    RingKept(s, s');
    forall u | 0 <= u < |s'.consumers| ensures ConsumerOk(s', s'.consumers[u]) {
      ConsumerKept(s, s', if u == t then pc else s.consumers[u]);
    }
  }

  lemma ReadIndexInv<T>(s: State<T>, t: nat)
    requires Inv(s) && t < |s.consumers| && s.consumers[t].Claimed?
    ensures Inv(ConsumerStep(s, t))
  {
    HeldInRing(s, s.consumers[t]);
    ConsumerMoves(s, t, HaveIndex(s.consumers[t].i, Now(s)));
  }

  lemma ReadFrontInv<T>(s: State<T>, t: nat)
    requires Inv(s) && t < |s.consumers| && s.consumers[t].HaveIndex?
    ensures ConsumerEnabled(s, s.consumers[t]) && Inv(ConsumerStep(s, t))
  {
    var HaveIndex(i, a) := s.consumers[t];
    assert ConsumerOk(s, s.consumers[t]) && ArrayOk(s, a);
    ConsumerMoves(s, t, HaveFront(i, a, s.arrays[a].front, s.metas[a].high - 1));
  }

  lemma ReadBaseInv<T>(s: State<T>, t: nat)
    requires Inv(s) && t < |s.consumers| && s.consumers[t].HaveFront?
    ensures ConsumerEnabled(s, s.consumers[t]) && Inv(ConsumerStep(s, t))
  {
    var HaveFront(i, a, front, n) := s.consumers[t];
    assert ConsumerOk(s, s.consumers[t]) && ArrayOk(s, a);
    HeldInRing(s, s.consumers[t]);
    assert Listed(s.arrays[a].entries, s.metas[a].shift, s, n);
    ConsumerMoves(s, t, HaveBase(i, a, front, s.arrays[a].entries[front].base, n));
  }

  /** The block found through any array, however old, is the one that holds the claimed element. */
  lemma ReadBlockInv<T>(s: State<T>, t: nat)
    requires Inv(s) && t < |s.consumers| && s.consumers[t].HaveBase?
    ensures ConsumerEnabled(s, s.consumers[t]) && Inv(ConsumerStep(s, t))
  {
    var HaveBase(i, a, front, base, n) := s.consumers[t];
    assert ConsumerOk(s, s.consumers[t]) && ArrayOk(s, a);
    HeldInRing(s, s.consumers[t]);
    var q := i / SIZE;
    assert Listed(s.arrays[a].entries, s.metas[a].shift, s, q);
    assert i - i % SIZE - base == SIZE * (q - n);
    SlotBack(n, q, s.metas[a].shift, |s.arrays[a].entries|);
    ConsumerMoves(s, t, HaveBlock(i, s.ring[q - s.first]));
  }

  /** The cell of a held element that was not moved yet. */
  lemma HeldCell<T>(s: State<T>, i: nat, b: nat)
    requires Inv(s) && InBlock(s, i, b) && i < s.published && i !in s.moved && i !in s.done
    ensures b < |s.blocks| && s.blocks[b].elements[i % SIZE] == Some(s.values[i])
  {
    var r := i / SIZE - s.first;
    assert BlockOk(s.blocks[s.ring[r]], s.values, s.moved, s.done, s.first + r);
    assert CellOk(s.blocks[b], i % SIZE, s.values, s.moved, s.done, s.first + r);
  }

  /** A block whose cell for element i changes as i is moved or flagged. */
  lemma TouchedBlock<T>(
      b: Block<T>, b': Block<T>, values: seq<T>, moved: set<nat>, moved': set<nat>, done: set<nat>, done': set<nat>,
      n: nat, i: nat, hit: bool)
    requires BlockOk(b, values, moved, done, n) && (hit <==> i / SIZE == n)
    requires moved' == moved || moved' == moved + {i}
    requires done' == done || done' == done + {i}
    requires |b'.elements| == |b.elements| == |b'.flags| == |b.flags| == SIZE
    requires forall o | 0 <= o < SIZE && !(hit && o == i % SIZE) ::
               b'.elements[o] == b.elements[o] && b'.flags[o] == b.flags[o]
    requires hit ==> CellOk(b', i % SIZE, values, moved', done', n)
    ensures BlockOk(b', values, moved', done', n)
  {
    forall o | 0 <= o < SIZE ensures CellOk(b', o, values, moved', done', n) {
      assert CellOk(b, o, values, moved, done, n);
      if !(hit && o == i % SIZE) {
        assert SIZE * n + o != i;
      }
    }
  }

  lemma TouchRing<T>(s: State<T>, s': State<T>, i: nat, b: nat)
    requires Inv(s) && Shaped(s') && InBlock(s, i, b)
    requires s'.ring == s.ring && s'.first == s.first && s'.values == s.values && |s'.blocks| == |s.blocks|
    requires s'.moved == s.moved || s'.moved == s.moved + {i}
    requires s'.done == s.done || s'.done == s.done + {i}
    requires forall c | 0 <= c < |s.blocks| && c != b :: s'.blocks[c] == s.blocks[c]
    requires forall o | 0 <= o < SIZE && o != i % SIZE ::
               s'.blocks[b].elements[o] == s.blocks[b].elements[o] && s'.blocks[b].flags[o] == s.blocks[b].flags[o]
    requires CellOk(s'.blocks[b], i % SIZE, s.values, s'.moved, s'.done, i / SIZE)
    ensures RingOk(s')
  {
    forall r | 0 <= r < |s'.ring| ensures BlockOk(s'.blocks[s'.ring[r]], s'.values, s'.moved, s'.done, s'.first + r) {
      assert BlockOk(s.blocks[s.ring[r]], s.values, s.moved, s.done, s.first + r);
      TouchedBlock(
        s.blocks[s.ring[r]], s'.blocks[s'.ring[r]], s.values, s.moved, s'.moved, s.done, s'.done, s.first + r, i,
        r == i / SIZE - s.first);
    }
  }

  lemma HeldCellOk<T>(s: State<T>, i: nat, b: nat)
    requires Inv(s) && InBlock(s, i, b)
    ensures b < |s.blocks| && CellOk(s.blocks[b], i % SIZE, s.values, s.moved, s.done, i / SIZE)
  {
    var r := i / SIZE - s.first;
    assert BlockOk(s.blocks[s.ring[r]], s.values, s.moved, s.done, s.first + r);
  }

  /** The other consumers hold other elements. */
  lemma OthersKept<T>(s: State<T>, s': State<T>, t: nat, i: nat, u: nat)
    requires Inv(s) && Shaped(s') && t < |s.consumers| && Holds(s.consumers[t]) && s.consumers[t].i == i
    requires u < |s.consumers| && u != t
    requires s'.ring == s.ring && s'.first == s.first && s'.arrays == s.arrays && s'.metas == s.metas
    requires s'.claimed == s.claimed
    requires s'.moved == s.moved || s'.moved == s.moved + {i}
    requires s'.done == s.done || s'.done == s.done + {i}
    ensures ConsumerOk(s', s.consumers[u])
  {
    assert ConsumerOk(s, s.consumers[u]);
    assert Holds(s.consumers[u]) ==> s.consumers[u].i != i;
  }

  lemma MoveRing<T>(s: State<T>, t: nat)
    requires Inv(s) && t < |s.consumers| && s.consumers[t].HaveBlock?
    ensures ConsumerEnabled(s, s.consumers[t]) && Shaped(ConsumerStep(s, t))
    ensures RingOk(ConsumerStep(s, t)) && SetsOk(ConsumerStep(s, t))
  {
    var HaveBlock(i, b) := s.consumers[t];
    assert ConsumerOk(s, s.consumers[t]);
    HeldInRing(s, s.consumers[t]);
    HeldCell(s, i, b);
    HeldCellOk(s, i, b);
    TouchRing(s, ConsumerStep(s, t), i, b);
  }

  lemma MoveInv<T>(s: State<T>, t: nat)
    requires Inv(s) && t < |s.consumers| && s.consumers[t].HaveBlock?
    ensures ConsumerEnabled(s, s.consumers[t]) && Inv(ConsumerStep(s, t))
  {
    var HaveBlock(i, b) := s.consumers[t];
    assert ConsumerOk(s, s.consumers[t]);
    MoveRing(s, t);
    var s' := ConsumerStep(s, t);
    ArraysKept(s, s');
    forall u | 0 <= u < |s'.consumers| ensures ConsumerOk(s', s'.consumers[u]) {
      if u != t {
        OthersKept(s, s', t, i, u);
      }
    }
  }

  lemma FlagRing<T>(s: State<T>, t: nat)
    requires Inv(s) && t < |s.consumers| && s.consumers[t].Flagging?
    ensures ConsumerEnabled(s, s.consumers[t]) && Shaped(ConsumerStep(s, t))
    ensures RingOk(ConsumerStep(s, t)) && SetsOk(ConsumerStep(s, t)) && ProducerOk(ConsumerStep(s, t))
  {
    var Flagging(i, b) := s.consumers[t];
    assert ConsumerOk(s, s.consumers[t]);
    HeldCellOk(s, i, b);
    TouchRing(s, ConsumerStep(s, t), i, b);
  }

  lemma FlagInv<T>(s: State<T>, t: nat)
    requires Inv(s) && t < |s.consumers| && s.consumers[t].Flagging?
    ensures ConsumerEnabled(s, s.consumers[t]) && Inv(ConsumerStep(s, t))
  {
    var Flagging(i, b) := s.consumers[t];
    assert ConsumerOk(s, s.consumers[t]);
    FlagRing(s, t);
    var s' := ConsumerStep(s, t);
    ArraysKept(s, s');
    forall u | 0 <= u < |s'.consumers| ensures ConsumerOk(s', s'.consumers[u]) {
      if u != t {
        OthersKept(s, s', t, i, u);
      }
    }
  }

  lemma ClaimInv<T>(s: State<T>, t: nat)
    requires Inv(s) && Enabled(s, Claim(t))
    ensures Inv(Apply(s, Claim(t)))
  {
    var s' := Apply(s, Claim(t));
    ArraysKept(s, s');
    RingKept(s, s');
    forall u | 0 <= u < |s'.consumers| ensures ConsumerOk(s', s'.consumers[u]) {
      if u != t {
        ConsumerKept(s, s', s.consumers[u]);
      }
    }
  }

  // ---- Producer steps

  lemma ProducerMoves<T>(s: State<T>, pc: Producer<T>)
    requires Inv(s) && Joining(pc) == Joining(s.producer) && ProducerOk(SetProducer(s, pc))
    ensures Inv(SetProducer(s, pc))
  {
    var s' := SetProducer(s, pc);
    ArraysKept(s, s');
    RingKept(s, s');
    ConsumersKept(s, s');
  }

  /** A block number whose elements are all still to come. */
  lemma UnusedBlock<T>(s: State<T>, b: Block<T>, n: nat)
    requires SetsOk(s) && |s.values| <= SIZE * n && s.published <= SIZE * n
    requires |b.elements| == SIZE == |b.flags|
    requires forall o | 0 <= o < SIZE :: b.elements[o] == None && !b.flags[o]
    ensures BlockOk(b, s.values, s.moved, s.done, n)
  {
    forall o | 0 <= o < SIZE ensures CellOk(b, o, s.values, s.moved, s.done, n) {
      assert SIZE * n + o !in s.done;
    }
  }

  /** All elements of a block whose flags are all set are done, so its cells are empty. */
  lemma AllDone<T>(s: State<T>)
    requires Inv(s) && s.ring != [] && forall o | 0 <= o < SIZE :: s.blocks[s.ring[0]].flags[o]
    ensures forall j | 0 <= j < SIZE * (s.first + 1) :: j in s.done
    ensures forall o | 0 <= o < SIZE :: s.blocks[s.ring[0]].elements[o] == None
  {
    var b := s.blocks[s.ring[0]];
    assert BlockOk(b, s.values, s.moved, s.done, s.first + 0);
    forall j | SIZE * s.first <= j < SIZE * (s.first + 1) ensures j in s.done {
      assert CellOk(b, j - SIZE * s.first, s.values, s.moved, s.done, s.first);
    }
    forall o | 0 <= o < SIZE ensures b.elements[o] == None {
      assert CellOk(b, o, s.values, s.moved, s.done, s.first);
      assert SIZE * s.first + o in s.done;
    }
  }

  lemma ReuseRing<T>(s: State<T>, x: T)
    requires Inv(s) && s.producer == Reusing(x)
    ensures Shaped(Reused(s, x)) && RingOk(Reused(s, x)) && SetsOk(Reused(s, x))
  {
    var s' := Reused(s, x);
    var k := |s.ring|;
    AllDone(s);
    forall r | 0 <= r < k ensures s'.ring[r] == s.ring[if r == k - 1 then 0 else r + 1] {
    }
    forall r | 0 <= r < k ensures BlockOk(s'.blocks[s'.ring[r]], s'.values, s'.moved, s'.done, s'.first + r) {
      if r == k - 1 {
        UnusedBlock(s, s'.blocks[s'.ring[r]], s'.first + r);
      } else {
        assert BlockOk(s.blocks[s.ring[r + 1]], s.values, s.moved, s.done, s.first + (r + 1));
      }
    }
  }

  /** A block is reused while every index array still lists all blocks that hold elements. */
  lemma ReuseArrays<T>(s: State<T>, x: T, a: nat)
    requires Inv(s) && s.producer == Reusing(x) && a < |s.arrays| && Shaped(Reused(s, x))
    ensures ArrayOk(Reused(s, x), a)
  {
    var s' := Reused(s, x);
    var entries, meta := s.arrays[a].entries, s.metas[a];
    assert ArrayOk(s, a);
    forall n | s'.first <= n < meta.high ensures Listed(entries, meta.shift, s', n) {
      assert Listed(entries, meta.shift, s, n);
    }
  }

  /** No consumer holds an element of the block that is reused. */
  lemma ReuseConsumers<T>(s: State<T>, x: T, u: nat)
    requires Inv(s) && s.producer == Reusing(x) && u < |s.consumers| && Shaped(Reused(s, x))
    ensures ConsumerOk(Reused(s, x), s.consumers[u])
    ensures Holds(s.consumers[u]) ==> s.consumers[u].i / SIZE > s.first
  {
    AllDone(s);
    var pc := s.consumers[u];
    assert ConsumerOk(s, pc);
    if Holds(pc) {
      assert pc.i >= SIZE * (s.first + 1);
    }
  }

  lemma ReuseInv<T>(s: State<T>, x: T)
    requires Inv(s) && s.producer == Reusing(x)
    ensures Inv(Reused(s, x))
  {
    var s' := Reused(s, x);
    ReuseRing(s, x);
    forall a | 0 <= a < |s'.arrays| ensures ArrayOk(s', a) {
      ReuseArrays(s, x, a);
    }
    forall u | 0 <= u < |s'.consumers| ensures ConsumerOk(s', s'.consumers[u]) {
      ReuseConsumers(s, x, u);
    }
  }

  /** j slots behind the slot of the block that is one lap ahead of `first`. */
  lemma SlotLap(first: nat, j: nat, shift: nat, size: nat)
    requires size > 0
    ensures Slot(Slot(first + size, shift, size), j, size) == Slot(first + j, shift, size)
  {
    var slot, laps := Slot(first + size, shift, size), (first + size + shift) / size;
    assert slot == first + size + shift - laps * size;
    assert slot + j == first + j + shift + (1 - laps) * size;
    ModShift(first + j + shift, 1 - laps, size);
  }

  /** The copied entries, in the order of their blocks. */
  lemma GrownEntry<T>(s: State<T>, j: nat)
    requires Inv(s) && s.producer.Adding? && |s.ring| == |s.arrays[Now(s)].entries| && j < |s.ring|
    ensures var entries := s.arrays[Now(s)].entries;
            entries[Slot(s.next, j, |entries|)] == Entry(SIZE * (s.first + j), s.ring[j])
  {
    var entries, meta := s.arrays[Now(s)].entries, s.metas[Now(s)];
    assert ArrayOk(s, Now(s));
    SlotLap(s.first, j, meta.shift, |entries|);
    assert Listed(entries, meta.shift, s, s.first + j);
  }

  lemma GrownSlot(n: nat, first: nat, size: nat)
    requires size > 0 && first <= n < first + 2 * size
    ensures Slot(n, GrownShift(size, first), 2 * size) == n - first
  {
    assert first * (2 * size - 1) == first * (2 * size) - first;
    DivModUnique(n + GrownShift(size, first), 2 * size, first, n - first);
  }

  lemma GrownArray<T>(s: State<T>)
    requires Inv(s) && s.producer.Adding? && |s.ring| == |s.arrays[Now(s)].entries|
    ensures Shaped(Grown(s)) && ArrayOk(Grown(s), |s.arrays|) && NowOk(Grown(s))
  {
    var s' := Grown(s);
    var size := |s.arrays[Now(s)].entries|;
    var entries, meta := s'.arrays[|s.arrays|].entries, s'.metas[|s.arrays|];
    assert ArrayOk(s, Now(s));
    GrownSlot(meta.high - 1, s.first, size);
    GrownSlot(meta.high, s.first, size);
    forall n | s'.first <= n < meta.high ensures Listed(entries, meta.shift, s', n) {
      GrownEntry(s, n - s.first);
      GrownSlot(n, s.first, size);
    }
  }

  lemma GrowInv<T>(s: State<T>)
    requires Inv(s) && s.producer.Adding?
    ensures Inv(Grown(s)) && |Grown(s).ring| < |Grown(s).arrays[Now(Grown(s))].entries|
  {
    var s' := Grown(s);
    if |s.ring| == |s.arrays[Now(s)].entries| {
      GrownArray(s);
      forall a | 0 <= a < |s'.arrays| ensures ArrayOk(s', a) {
        if a < |s.arrays| {
          SameArray(s, s', a);
        }
      }
      ConsumersKept(s, s');
    }
  }

  lemma AddRing<T>(s: State<T>, x: T)
    requires Inv(s) && s.producer == Adding(x)
    ensures Shaped(Added(s, x)) && RingOk(Added(s, x))
  {
    var s' := Added(s, x);
    forall r | 0 <= r < |s'.ring| ensures BlockOk(s'.blocks[s'.ring[r]], s'.values, s'.moved, s'.done, s'.first + r) {
      if r < |s.ring| {
        assert BlockOk(s.blocks[s.ring[r]], s.values, s.moved, s.done, s.first + r);
      } else {
        UnusedBlock(s, s'.blocks[s'.ring[r]], s'.first + r);
      }
    }
  }

  lemma AddArray<T>(s: State<T>, x: T, a: nat)
    requires Inv(s) && s.producer == Adding(x) && a < |s.arrays| && Shaped(Added(s, x))
    ensures ArrayOk(Added(s, x), a)
  {
    var s' := Added(s, x);
    assert ArrayOk(s, a);
    forall n | s'.first <= n < s.metas[a].high ensures Listed(s.arrays[a].entries, s.metas[a].shift, s', n) {
      assert Listed(s.arrays[a].entries, s.metas[a].shift, s, n);
    }
  }

  lemma AddInv<T>(s: State<T>, x: T)
    requires Inv(s) && s.producer == Adding(x) && |s.ring| < |s.arrays[Now(s)].entries|
    ensures Inv(Added(s, x))
  {
    var s' := Added(s, x);
    AddRing(s, x);
    forall a | 0 <= a < |s'.arrays| ensures ArrayOk(s', a) {
      AddArray(s, x, a);
    }
    ConsumersKept(s, s');
  }

  /** Writing the slot of the joining block leaves the listed blocks alone. */
  lemma EntryInv<T>(s: State<T>, e: Entry, pc: Producer<T>)
    requires Inv(s) && Joining(s.producer) && Joining(pc)
    requires ProducerOk(SetProducer(SetEntry(s, s.next, e), pc))
    ensures Inv(SetProducer(SetEntry(s, s.next, e), pc))
  {
    var s' := SetProducer(SetEntry(s, s.next, e), pc);
    forall a | 0 <= a < |s'.arrays| ensures ArrayOk(s', a) {
      EntryArray(s, s', e, a);
    }
    RingKept(s, s');
    ConsumersKept(s, s');
  }

  lemma EntryArray<T>(s: State<T>, s': State<T>, e: Entry, a: nat)
    requires Inv(s) && Joining(s.producer) && a < |s.arrays| && Shaped(s')
    requires s' == SetEntry(s, s.next, e).(producer := s'.producer)
    ensures ArrayOk(s', a)
  {
    if a < Now(s) {
      SameArray(s, s', a);
    } else {
      var entries, entries', meta := s.arrays[a].entries, s'.arrays[a].entries, s.metas[a];
      assert ArrayOk(s, a);
      forall n | s'.first <= n < meta.high ensures Listed(entries', meta.shift, s', n) {
        assert Listed(entries, meta.shift, s, n);
        ModDistinct(n + meta.shift, meta.high + meta.shift, |entries|);
      }
    }
  }

  lemma FrontArray<T>(s: State<T>)
    requires Inv(s) && s.producer.StoringFront?
    ensures Shaped(ProducerStep(s)) && ArrayOk(ProducerStep(s), Now(s))
  {
    var s', a := ProducerStep(s), Now(s);
    var entries, meta := s.arrays[a].entries, s.metas[a];
    assert ArrayOk(s, a);
    forall n | s'.first <= n < Top(s) ensures Listed(entries, meta.shift, s', n) {
      assert n < meta.high ==> Listed(entries, meta.shift, s, n);
    }
  }

  lemma FrontInv<T>(s: State<T>)
    requires Inv(s) && s.producer.StoringFront?
    ensures Inv(ProducerStep(s))
  {
    var s' := ProducerStep(s);
    var a := Now(s);
    var entries, meta := s.arrays[a].entries, s.metas[a];
    SlotNext(meta.high, meta.shift, |entries|);
    forall c | 0 <= c < |s'.arrays| ensures ArrayOk(s', c) {
      if c < a {
        SameArray(s, s', c);
      } else {
        FrontArray(s);
      }
    }
    RingKept(s, s');
    ConsumersKept(s, s');
  }

  lemma ConstructBlock<T>(
      b: Block<T>, b': Block<T>, values: seq<T>, x: T, moved: set<nat>, done: set<nat>, n: nat, hit: bool)
    requires BlockOk(b, values, moved, done, n) && |b.elements| == SIZE == |b.flags|
    requires |values| !in moved && (hit <==> |values| / SIZE == n)
    requires b' == if hit then b.(elements := b.elements[|values| % SIZE := Some(x)]) else b
    ensures BlockOk(b', values + [x], moved, done, n)
  {
    forall o | 0 <= o < SIZE ensures CellOk(b', o, values + [x], moved, done, n) {
      assert CellOk(b, o, values, moved, done, n);
      if !(hit && o == |values| % SIZE) {
        assert SIZE * n + o != |values|;
      }
    }
  }

  /** The constructed cell is the one of the next element, in the newest block. */
  lemma ConstructRing<T>(s: State<T>)
    requires Inv(s) && s.producer.Constructing?
    ensures Shaped(ProducerStep(s)) && RingOk(ProducerStep(s))
  {
    var s' := ProducerStep(s);
    forall r | 0 <= r < |s'.ring| ensures BlockOk(s'.blocks[s'.ring[r]], s'.values, s'.moved, s'.done, s'.first + r) {
      ConstructRingBlock(s, s', r);
    }
  }

  lemma ConstructRingBlock<T>(s: State<T>, s': State<T>, r: nat)
    requires Inv(s) && s.producer.Constructing? && s' == ProducerStep(s) && r < |s.ring|
    ensures BlockOk(s'.blocks[s'.ring[r]], s'.values, s'.moved, s'.done, s'.first + r)
  {
    assert BlockOk(s.blocks[s.ring[r]], s.values, s.moved, s.done, s.first + r);
    NewestBlock(s.published, s.first, |s.ring|, r);
    ConstructBlock(
      s.blocks[s.ring[r]], s'.blocks[s'.ring[r]], s.values, s.producer.x, s.moved, s.done, s.first + r,
      r == |s.ring| - 1);
  }

  lemma NewestBlock(published: nat, first: nat, k: nat, r: nat)
    requires SIZE * (first + k - 1) <= published < SIZE * (first + k) && r < k
    ensures published / SIZE == first + r <==> r == k - 1
  {
  }

  lemma ConstructInv<T>(s: State<T>)
    requires Inv(s) && s.producer.Constructing?
    ensures Inv(ProducerStep(s))
  {
    var s' := ProducerStep(s);
    ConstructRing(s);
    ArraysKept(s, s');
    ConsumersKept(s, s');
  }

  lemma PublishInv<T>(s: State<T>)
    requires Inv(s) && s.producer.Publishing?
    ensures Inv(ProducerStep(s))
  {
    var s' := ProducerStep(s);
    ArraysKept(s, s');
    RingKept(s, s');
    ConsumersKept(s, s');
  }

  // ---- Every step

  lemma ProduceInv<T>(s: State<T>)
    requires Inv(s) && !s.producer.Ready?
    ensures ProducerEnabled(s) && Inv(ProducerStep(s))
  {
    match s.producer
    case Testing(x, k) => TestInv(s, x, k);
    case Reusing(x) => ReuseInv(s, x);
    case Adding(x) =>
      GrowInv(s);
      AddInv(Grown(s), x);
    case WritingBase(_, _) => WriteInv(s);
    case WritingBlock(_, _) => WriteInv(s);
    case StoringFront(_, _) => FrontInv(s);
    case Constructing(_) => ConstructInv(s);
    case Publishing => PublishInv(s);
  }

  lemma WriteInv<T>(s: State<T>)
    requires Inv(s) && (s.producer.WritingBase? || s.producer.WritingBlock?)
    ensures Inv(ProducerStep(s))
  {
    var e := s.arrays[Now(s)].entries[s.next];
    if s.producer.WritingBase? {
      EntryInv(s, e.(base := s.published), WritingBlock(s.producer.x, s.producer.b));
    } else {
      EntryInv(s, e.(block := s.producer.b), StoringFront(s.producer.x, s.producer.b));
    }
  }

  lemma TestInv<T>(s: State<T>, x: T, k: nat)
    requires Inv(s) && s.producer == Testing(x, k)
    ensures ProducerEnabled(s) && Inv(ProducerStep(s))
  {
    ProducerMoves(s, ProducerStep(s).producer);
  }

  lemma ConsumeInv<T>(s: State<T>, t: nat)
    requires Inv(s) && t < |s.consumers| && Holds(s.consumers[t])
    ensures ConsumerEnabled(s, s.consumers[t]) && Inv(ConsumerStep(s, t))
  {
    match s.consumers[t]
    case Claimed(_) => ReadIndexInv(s, t);
    case HaveIndex(_, _) => ReadFrontInv(s, t);
    case HaveFront(_, _, _, _) => ReadBaseInv(s, t);
    case HaveBase(_, _, _, _, _) => ReadBlockInv(s, t);
    case HaveBlock(_, _) => MoveInv(s, t);
    case Flagging(_, _) => FlagInv(s, t);
  }

  lemma EnqueueInv<T>(s: State<T>, x: T)
    requires Inv(s) && s.producer.Ready?
    ensures Inv(Apply(s, Enqueue(x)))
  {
    ProducerMoves(s, Apply(s, Enqueue(x)).producer);
  }

  lemma ApplyInv<T>(s: State<T>, act: Action<T>)
    requires Inv(s) && Enabled(s, act)
    ensures Inv(Apply(s, act))
  {
    match act
    case Enqueue(x) => EnqueueInv(s, x);
    case Produce => ProduceInv(s);
    case Claim(t) => ClaimInv(s, t);
    case Consume(t) => ConsumeInv(s, t);
  }

  lemma {:induction false} RunInv<T>(s: State<T>, actions: seq<Action<T>>)
    requires Inv(s) && Runs(s, actions)
    ensures Inv(After(s, actions))
    decreases |actions|
  {
    if actions != [] {
      ApplyInv(s, actions[0]);
      RunInv(Apply(s, actions[0]), actions[1..]);
    }
  }

  ghost predicate Reachable<T(!new)>(s: State<T>) {
    exists n: nat, actions :: Runs(Init(n), actions) && s == After(Init(n), actions)
  }

  lemma ReachableInv<T(!new)>(s: State<T>)
    requires Reachable(s)
    ensures Inv(s)
  {
    var n: nat, actions :| Runs(Init(n), actions) && s == After(Init(n), actions);
    InitInv<T>(n);
    RunInv(Init(n), actions);
  }

  // ---- Main results

  /** Whoever is under way can take its next step: no array or block is indexed outside, no empty cell is read. */
  lemma NeverStuck<T(!new)>(s: State<T>)
    requires Reachable(s)
    ensures !s.producer.Ready? ==> Enabled(s, Produce)
    ensures forall t | 0 <= t < |s.consumers| && !s.consumers[t].Idle? :: Enabled(s, Consume(t))
  {
    ReachableInv(s);
    if !s.producer.Ready? {
      ProduceInv(s);
    }
    forall t | 0 <= t < |s.consumers| && !s.consumers[t].Idle? ensures Enabled(s, Consume(t)) {
      ConsumeInv(s, t);
    }
  }

  /** The elements that a run enqueues, in order. */
  function Enqueued<T>(actions: seq<Action<T>>): seq<T> {
    if actions == [] then []
    else (if actions[0].Enqueue? then [actions[0].x] else []) + Enqueued(actions[1..])
  }

  /** The element of an enqueue under way that is not yet in its cell. */
  function InFlight<T>(pc: Producer<T>): seq<T> {
    match pc
    case Ready => []
    case Testing(x, _) => [x]
    case Reusing(x) => [x]
    case Adding(x) => [x]
    case WritingBase(x, _) => [x]
    case WritingBlock(x, _) => [x]
    case StoringFront(x, _) => [x]
    case Constructing(x) => [x]
    case Publishing => []
  }

  lemma StepValues<T>(s: State<T>, act: Action<T>)
    requires Enabled(s, act)
    ensures Apply(s, act).values + InFlight(Apply(s, act).producer)
         == s.values + InFlight(s.producer) + if act.Enqueue? then [act.x] else []
  {
    match act
    case Enqueue(x) => assert s.values + [] + [x] == s.values + [x];
    case Produce => ProduceValues(s);
    case _ =>
  }

  lemma ProduceValues<T>(s: State<T>)
    requires Shaped(s) && ProducerEnabled(s)
    ensures ProducerStep(s).values + InFlight(ProducerStep(s).producer) == s.values + InFlight(s.producer)
  {
    if s.producer.Constructing? {
      assert ProducerStep(s).values == s.values + [s.producer.x];
    } else {
      assert ProducerStep(s).values == s.values;
      assert InFlight(ProducerStep(s).producer) == InFlight(s.producer);
    }
  }

  lemma {:induction false} ValuesFrom<T>(s: State<T>, actions: seq<Action<T>>)
    requires Runs(s, actions)
    ensures After(s, actions).values + InFlight(After(s, actions).producer)
         == s.values + InFlight(s.producer) + Enqueued(actions)
    decreases |actions|
  {
    if actions == [] {
      assert s.values + InFlight(s.producer) + [] == s.values + InFlight(s.producer);
    } else {
      StepValues(s, actions[0]);
      ValuesFrom(Apply(s, actions[0]), actions[1..]);
      Associative(
        s.values + InFlight(s.producer), if actions[0].Enqueue? then [actions[0].x] else [], Enqueued(actions[1..]));
    }
  }

  lemma Associative<T>(a: seq<T>, b: seq<T>, c: seq<T>)
    ensures a + b + c == a + (b + c)
  {
  }

  /**
    In every run the published elements are those enqueued, in order, but for the one under way; constructed elements
    are in their cells as they were given.
   */
  lemma PublishedAreEnqueued<T>(consumers: nat, actions: seq<Action<T>>)
    requires Runs(Init(consumers), actions)
    ensures var s := After(Init(consumers), actions);
            && |Enqueued(actions)| == s.published + (if s.producer.Ready? then 0 else 1)
            && |s.values| <= |Enqueued(actions)| && s.values == Enqueued(actions)[..|s.values|]
            && s.published <= |s.values|
  {
    var s := After(Init(consumers), actions);
    InitInv<T>(consumers);
    RunInv(Init(consumers), actions);
    ValuesFrom(Init(consumers), actions);
    assert s.values + InFlight(s.producer) == Enqueued(actions);
  }

  /** A consumer that claimed index i moves out exactly the i-th element ever enqueued, which nobody took before. */
  lemma GetsItsElement<T>(consumers: nat, actions: seq<Action<T>>, t: nat)
    requires Runs(Init(consumers), actions) && t < |After(Init(consumers), actions).consumers|
    requires After(Init(consumers), actions).consumers[t].HaveBlock?
    ensures var s := After(Init(consumers), actions);
            var HaveBlock(i, b) := s.consumers[t];
            && i < |Enqueued(actions)| && b < |s.blocks| && |s.blocks[b].elements| == SIZE
            && s.blocks[b].elements[i % SIZE] == Some(Enqueued(actions)[i]) && i !in s.taken
  {
    var s := After(Init(consumers), actions);
    InitInv<T>(consumers);
    RunInv(Init(consumers), actions);
    PublishedAreEnqueued(consumers, actions);
    var HaveBlock(i, b) := s.consumers[t];
    assert ConsumerOk(s, s.consumers[t]);
    HeldInRing(s, s.consumers[t]);
    HeldCell(s, i, b);
  }

  /** When a block is reused, all its elements were flagged and no consumer is between claim and flag on one of them. */
  lemma ReusedWhenDone<T(!new)>(s: State<T>)
    requires Reachable(s) && s.producer.Reusing?
    ensures forall j | SIZE * s.first <= j < SIZE * (s.first + 1) :: j in s.done && j in s.taken
    ensures forall t | 0 <= t < |s.consumers| && !s.consumers[t].Idle? :: s.consumers[t].i / SIZE > s.first
  {
    ReachableInv(s);
    AllDone(s);
    ReuseRing(s, s.producer.x);
    forall t | 0 <= t < |s.consumers| && !s.consumers[t].Idle? ensures s.consumers[t].i / SIZE > s.first {
      ReuseConsumers(s, s.producer.x, t);
    }
  }

  /** Every element taken is the one enqueued under its index, and no two consumers are after the same index. */
  lemma TakenInOrder<T>(consumers: nat, actions: seq<Action<T>>)
    requires Runs(Init(consumers), actions)
    ensures var s := After(Init(consumers), actions);
            forall j | j in s.taken :: j < |Enqueued(actions)| && s.taken[j] == Enqueued(actions)[j]
    ensures var cs := After(Init(consumers), actions).consumers;
            forall t, u | 0 <= t < u < |cs| && !cs[t].Idle? && !cs[u].Idle? :: cs[t].i != cs[u].i
  {
    InitInv<T>(consumers);
    RunInv(Init(consumers), actions);
    PublishedAreEnqueued(consumers, actions);
  }
}
