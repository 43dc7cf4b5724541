/**
  The explicit producer (common/concurrentqueue.h, `ExplicitProducer`) run sequentially: enqueue and dequeue over the
  block ring, with block reuse and a doubling block index, refine a first-in first-out sequence. Allocation succeeds
  and elements do not throw. All index registers wrap at 2^64.
 */
module ExplicitProducer {
  import opened Arithmetic
  import opened BlockIndex
  import opened BlockRing
  import opened CircularIndex
  import QueueSpec
  import opened Words
  import opened Wrappers

  lemma WrapOffset(x: nat)
    ensures Wrap(x) % BLOCK_SIZE == x % BLOCK_SIZE
  {
  }

  lemma WrapRoundDown(x: nat)
    ensures RoundDown(Wrap(x), BLOCK_SIZE) == Wrap(x - x % BLOCK_SIZE)
  {
    WrapOffset(x);
    WrapShift(Wrap(x) - x % BLOCK_SIZE, x / TWO_64);
  }

  lemma Pow2Facts()
    ensures Pow2(5) == BLOCK_SIZE && BLOCK_SIZE * Pow2(58) == HALF
  {
    Pow2Of64();
    assert Pow2(4) == 16;
    Pow2Splits(58, 6);
    assert Pow2(6) == 64;
  }

  /** A ring that fills its index while the enqueue guard passes leaves room to double the index. */
  lemma RoomToDouble(bits: nat, blocks: nat)
    requires Pow2(bits) == blocks && BLOCK_SIZE * blocks < HALF
    ensures bits < 58
  {
    Pow2Facts();
    if bits >= 58 {
      Pow2Monotone(58, bits);
    }
  }

  /** The index registers: how much of the index is used, the next slot to write and the newest one written. */
  ghost predicate SlotsOk<T>(entries: seq<Entry>, v: View<T>, bits: nat, slotsUsed: nat, front: nat, newest: nat) {
    && IndexOk(entries, v)
    && |entries| == Pow2(bits) && bits <= 59
    && slotsUsed == |v.ring|
    && front == SlotAt(v.slot + |v.ring|, |entries|)
    && (v.ring != [] ==> newest == SlotAt(v.slot + |v.ring| - 1, |entries|))
  }

  lemma Doubled<T>(
      entries: seq<Entry>, larger: seq<Entry>, v: View<T>, bits: nat, slotsUsed: nat, front: nat, newest: nat)
    requires SlotsOk(entries, v, bits, slotsUsed, front, newest) && slotsUsed == |entries| && bits < 59
    requires |larger| == 2 * |entries|
    requires forall i | 0 <= i < |entries| :: larger[i] == entries[SlotAt(v.slot + i, |entries|)]
    ensures SlotsOk(larger, v.(slot := 0), bits + 1, slotsUsed, slotsUsed, slotsUsed - 1)
  {
    MoveIndex(entries, larger, v);
  }

  lemma PublishReused<T>(entries: seq<Entry>, v: View<T>, bits: nat, slotsUsed: nat, front: nat, newest: nat)
    requires SlotsOk(entries, v, bits, slotsUsed, front, newest) && v.ring != []
    requires v.enqueued == Base(v, |v.ring|)
    ensures SlotsOk(
              entries[front := Entry(Wrap(v.enqueued), v.ring[0])], Rotated(v), bits, slotsUsed,
              (front + 1) % |entries|, front)
  {
    RotateIndex(entries, v);
    NextSlot(v.slot + |v.ring|, |entries|);
  }

  lemma PublishFresh<T>(entries: seq<Entry>, v: View<T>, bits: nat, slotsUsed: nat, front: nat, newest: nat, b: nat)
    requires SlotsOk(entries, v, bits, slotsUsed, front, newest) && slotsUsed < |entries|
    requires v.enqueued == Base(v, |v.ring|)
    ensures SlotsOk(
              entries[front := Entry(Wrap(v.enqueued), b)], Extended(v, b), bits, slotsUsed + 1,
              (front + 1) % |entries|, front)
  {
    ExtendIndex(entries, v, b);
    NextSlot(v.slot + |v.ring|, |entries|);
  }

  /** The slot computed for the oldest element names the block that holds it. */
  lemma HeadSlot<T>(entries: seq<Entry>, v: View<T>, bits: nat, slotsUsed: nat, front: nat, newest: nat, i: nat)
    requires SlotsOk(entries, v, bits, slotsUsed, front, newest) && CountsOk(v) && v.contents != []
    requires i < |v.ring| && v.dequeued - v.dequeued % BLOCK_SIZE == Base(v, i)
    ensures newest < |entries|
    ensures var s := ComputedSlot(Wrap(v.dequeued), entries[newest].base, newest, BLOCK_SIZE, |entries|);
            s < |entries| && entries[s].block == v.ring[i]
  {
    var k, n := |v.ring|, |entries|;
    assert EntryOk(entries, v, k - 1);
    HeadBase(v, i);
    ComputedHead(bits, n, Wrap(v.dequeued), entries[newest].base, newest, v.slot + (k - 1), k - 1 - i);
    assert EntryOk(entries, v, i);
  }

  /** The slot computed for an index m blocks behind the newest one. */
  lemma ComputedHead(bits: nat, n: nat, index: Index, base: Index, newest: nat, x: nat, m: nat)
    requires n == Pow2(bits) && bits <= 59 && m < n && m <= x && newest == SlotAt(x, n)
    requires RoundDown(index, BLOCK_SIZE) == Wrap(base - m * BLOCK_SIZE)
    ensures ComputedSlot(index, base, newest, BLOCK_SIZE, n) == SlotAt(x - m, n)
  {
    Pow2Facts();
    SlotBehind(5, bits, index, base, newest, m);
    BackFrom(x, m, n);
  }

  /** The block of the oldest element is |ring| - 1 - i blocks behind the newest one, in wrapped indices. */
  lemma HeadBase<T>(v: View<T>, i: nat)
    requires i < |v.ring| && v.dequeued - v.dequeued % BLOCK_SIZE == Base(v, i)
    ensures RoundDown(Wrap(v.dequeued), BLOCK_SIZE)
         == Wrap(Wrap(Base(v, |v.ring| - 1)) - (|v.ring| - 1 - i) * BLOCK_SIZE)
  {
    WrapRoundDown(v.dequeued);
    WrapSum(Base(v, |v.ring| - 1), 0 - (|v.ring| - 1 - i) * BLOCK_SIZE);
  }

  lemma BackFrom(x: nat, m: nat, n: nat)
    requires n > 0 && m <= x
    ensures (SlotAt(x, n) - m) % n == SlotAt(x - m, n)
  {
    SlotAtIsMod(x, n);
    SlotAtIsMod(x - m, n);
    assert x % n - m == (x - m) + (0 - x / n) * n;
    ModShift(x - m, 0 - x / n, n);
  }

  /** The tail index is at a block boundary exactly when the tail block is full. */
  lemma AtBoundary<T>(v: View<T>)
    requires CountsOk(v) && (v.ring != [] ==> Base(v, |v.ring| - 1) < v.enqueued)
    ensures Wrap(v.enqueued) % BLOCK_SIZE == 0 <==> v.enqueued == Base(v, |v.ring|)
    ensures Wrap(v.enqueued) % BLOCK_SIZE != 0 ==>
              v.ring != [] && v.enqueued == Base(v, |v.ring| - 1) + Wrap(v.enqueued) % BLOCK_SIZE
  {
    WrapOffset(v.enqueued);
  }

  lemma BlockStart<T>(v: View<T>)
    requires v.ring != [] && v.enqueued == Base(v, |v.ring| - 1)
    ensures Wrap(v.enqueued) % BLOCK_SIZE == 0
  {
    WrapOffset(v.enqueued);
  }

  /** Where the oldest element is. */
  lemma HeadPosition<T>(v: View<T>, index: Index) returns (i: nat)
    requires CountsOk(v) && v.contents != [] && index == Wrap(v.dequeued)
    ensures i < |v.ring| && v.dequeued - v.dequeued % BLOCK_SIZE == Base(v, i)
    ensures v.dequeued == Base(v, i) + index % BLOCK_SIZE
  {
    LocateHead(v);
    WrapOffset(v.dequeued);
    i := v.dequeued / BLOCK_SIZE - v.first;
  }

  lemma FindHead<T>(
      entries: seq<Entry>, v: View<T>, bits: nat, slotsUsed: nat, front: nat, newest: nat, index: Index)
      returns (i: nat)
    requires SlotsOk(entries, v, bits, slotsUsed, front, newest) && CountsOk(v) && v.contents != []
    requires index == Wrap(v.dequeued)
    ensures i < |v.ring| && v.dequeued == Base(v, i) + index % BLOCK_SIZE && newest < |entries|
    ensures var s := ComputedSlot(index, entries[newest].base, newest, BLOCK_SIZE, |entries|);
            s < |entries| && entries[s].block == v.ring[i]
  {
    i := HeadPosition(v, index);
    HeadSlot(entries, v, bits, slotsUsed, front, newest, i);
  }

  lemma NonemptyTest<T>(v: View<T>)
    requires CountsOk(v)
    ensures CircularLess(Wrap(v.dequeued), Wrap(v.enqueued)) <==> 0 < |v.contents| < HALF
  {
    CircularLessExact(v.dequeued, v.enqueued);
  }

  lemma QueuedCount<T>(v: View<T>)
    requires CountsOk(v)
    ensures CircularLess(Wrap(v.dequeued), Wrap(v.enqueued)) <==> 0 < |v.contents| < HALF
    ensures Wrap(Wrap(v.enqueued) as int - Wrap(v.dequeued)) == |v.contents|
  {
    NonemptyTest(v);
    WrapDifference(v.enqueued, v.dequeued);
  }

  lemma RoomTest<T>(v: View<T>)
    requires CountsOk(v)
    ensures CircularLess(Wrap(v.dequeued), Wrap(Wrap(v.enqueued) + BLOCK_SIZE)) <==> |v.contents| + BLOCK_SIZE < HALF
  {
    CircularLessExact(v.dequeued, v.enqueued + BLOCK_SIZE);
    WrapSum(v.enqueued, BLOCK_SIZE);
  }

  /** A ring without a reusable block is small enough to take another block. */
  lemma RingBound<T>(v: View<T>)
    requires CountsOk(v) && !(v.ring != [] && Base(v, 1) <= v.dequeued)
    requires v.enqueued == Base(v, |v.ring|) && |v.contents| + BLOCK_SIZE < HALF
    ensures BLOCK_SIZE * |v.ring| < HALF && BLOCK_SIZE * (|v.ring| + 1) <= HALF
  {
  }

  lemma TicketTaken(count: int, over: int)
    ensures Wrap(Wrap(count + 1) - over) == Wrap(Wrap(count - over) + 1)
  {
    WrapSum(count + 1, 0 - over);
    WrapSum(count - over, 1);
  }

  /** The index does not depend on what is queued. */
  lemma SlotsSame<T>(
      entries: seq<Entry>, v: View<T>, v': View<T>, bits: nat, slotsUsed: nat, front: nat, newest: nat)
    requires SlotsOk(entries, v, bits, slotsUsed, front, newest)
    requires v'.ring == v.ring && v'.first == v.first && v'.slot == v.slot
    ensures SlotsOk(entries, v', bits, slotsUsed, front, newest)
  {
    forall i | 0 <= i < |v'.ring| ensures EntryOk(entries, v', i) {
      assert EntryOk(entries, v, i);
    }
  }

  class ExplicitProducer<T> {
    var tailIndex: Index
    var headIndex: Index
    var optimistic: Index
    var overcommit: Index
    var tailBlock: Option<nat>
    var blocks: seq<Block<T>>
    var entries: seq<Entry>
    var newest: Index
    var slotsUsed: nat
    var front: nat
    ghost var v: View<T>
    ghost var bits: nat

    ghost predicate Registers()
      reads this
    {
      && tailIndex == Wrap(v.enqueued)
      && headIndex == Wrap(v.dequeued)
      && Wrap(optimistic - overcommit) == Wrap(v.dequeued)
    }

    ghost predicate Slots()
      reads this
    {
      SlotsOk(entries, v, bits, slotsUsed, front, newest)
    }

    ghost predicate Blocks()
      reads this
    {
      && CountsOk(v)
      && DataOk(blocks, v)
      && tailBlock == TailOf(v.ring)
    }

    /** Outside `enqueue` the tail block holds at least one element number. */
    ghost predicate Valid()
      reads this
    {
      Registers() && Slots() && Blocks() && (v.ring != [] ==> Base(v, |v.ring| - 1) < v.enqueued)
    }

    /** What reading the indices needs. */
    ghost predicate Counted()
      reads this
    {
      tailIndex == Wrap(v.enqueued) && headIndex == Wrap(v.dequeued) && CountsOk(v)
    }

    ghost function Contents(): seq<T>
      reads this
    {
      v.contents
    }

    ghost function State(): QueueSpec.Queue<T>
      reads this
    {
      QueueSpec.Queue(v.contents, v.enqueued, v.first, |v.ring|)
    }

    constructor ()
      ensures Valid() && State() == QueueSpec.Empty()
    {
      tailIndex, headIndex, optimistic, overcommit := 0, 0, 0, 0;
      tailBlock, blocks := None, [];
      // The constructor calls new_block_index(0) on half the initial size.
      entries := seq(INITIAL_INDEX_SIZE, _ => Entry(0, 0));
      newest := Wrap(0 - 1);
      slotsUsed, front := 0, 0;
      v := View([], 0, 0, 0, 0, []);
      bits := 5;
      new;
      Pow2Facts();
    }

    method IsEmpty(b: nat) returns (empty: bool)
      requires b < |blocks| && |blocks[b].empty| == BLOCK_SIZE
      ensures empty <==> forall i | 0 <= i < BLOCK_SIZE :: blocks[b].empty[i]
    {
      var i := 0;
      while i < BLOCK_SIZE
        invariant i <= BLOCK_SIZE && forall j | 0 <= j < i :: blocks[b].empty[j]
      {
        if !blocks[b].empty[i] {
          return false;
        }
        i := i + 1;
      }
      return true;
    }

    /** `new_block_index` on a full index: doubles it and moves the entries to its beginning, oldest first. */
    method NewBlockIndex()
      requires Slots() && Blocks() && slotsUsed == |entries| && bits < 59
      modifies this`entries, this`front, this`newest, this`v, this`bits
      ensures Slots() && Blocks() && v == old(v).(slot := 0) && slotsUsed < |entries|
    {
      var larger, j := CopyEntries(entries, front, slotsUsed, v.slot);
      Doubled(entries, larger, v, bits, slotsUsed, front, newest);
      DataMoved(blocks, v, v.(slot := 0));
      entries := larger;
      newest := slotsUsed - 1;
      front := j;
      v := v.(slot := 0);
      bits := bits + 1;
    }

    /** Makes the tail block the newest one of the index. */
    method Publish()
      requires front < |entries| && |entries| < TWO_64 && tailBlock.Some?
      modifies this`entries, this`newest, this`front
      ensures entries == old(entries)[old(front) := Entry(tailIndex, tailBlock.value)]
      ensures newest == old(front) && front == (old(front) + 1) % |entries|
    {
      entries := entries[front := Entry(tailIndex, tailBlock.value)];
      newest := front;
      front := (front + 1) % |entries|;
    }

    /** The end of a block is reached: reuse the oldest block if it is empty, else link in a fresh one. */
    method StartBlock() returns (ok: bool)
      requires Valid() && tailIndex % BLOCK_SIZE == 0
      modifies this`tailBlock, this`blocks, this`entries, this`newest, this`slotsUsed, this`front, this`v, this`bits
      ensures Registers() && Slots() && Blocks()
      ensures v.enqueued == old(v.enqueued) && v.dequeued == old(v.dequeued) && v.contents == old(v.contents)
      ensures ok ==> v.ring != [] && Base(v, |v.ring| - 1) == v.enqueued
      ensures ok <==> (old(Reusable()) || |Contents()| + BLOCK_SIZE < HALF)
      ensures !ok ==> v == old(v)
      ensures |v.ring| == |old(v.ring)| + (if ok && !old(Reusable()) then 1 else 0)
      ensures v.first == old(v.first) + (if old(Reusable()) then 1 else 0)
    {
      AtBoundary(v);
      var reuse := false;
      if tailBlock.Some? {
        OldestIsEmpty(blocks, v);
        reuse := IsEmpty(blocks[tailBlock.value].next);
      }
      if reuse {
        ReuseBlock();
        return true;
      }
      ok := GrowRing();
    }

    /** No block can be reused: link in a fresh one unless the tail could then pass the head. */
    method GrowRing() returns (ok: bool)
      requires Registers() && Slots() && Blocks() && !Reusable() && v.enqueued == Base(v, |v.ring|)
      modifies this`tailBlock, this`blocks, this`entries, this`newest, this`slotsUsed, this`front, this`v, this`bits
      ensures Registers() && Slots() && Blocks()
      ensures v.enqueued == old(v.enqueued) && v.dequeued == old(v.dequeued) && v.contents == old(v.contents)
      ensures ok <==> |Contents()| + BLOCK_SIZE < HALF
      ensures ok ==> v.ring == old(v.ring) + [|old(blocks)|] && Base(v, |v.ring| - 1) == v.enqueued
      ensures v.first == old(v.first) && (!ok ==> v == old(v))
    {
      RoomTest(v);
      if !CircularLess(headIndex, Wrap(tailIndex + BLOCK_SIZE)) {
        return false;
      }
      RingBound(v);
      if slotsUsed == |entries| {
        RoomToDouble(bits, slotsUsed);
        NewBlockIndex();
      }
      AddBlock();
      return true;
    }

    /** The block after the tail block exists and all its slots are flagged empty. */
    ghost predicate Reusable()
      reads this
    {
      v.ring != [] && Base(v, 1) <= v.dequeued
    }

    method ReuseBlock()
      requires Registers() && Slots() && Blocks() && Reusable() && v.enqueued == Base(v, |v.ring|)
      modifies this`tailBlock, this`blocks, this`entries, this`newest, this`front, this`v
      ensures Registers() && Slots() && Blocks() && v == Rotated(old(v))
    {
      ReuseOldest(blocks, v);
      PublishReused(entries, v, bits, slotsUsed, front, newest);
      tailBlock := Some(blocks[tailBlock.value].next);
      blocks := blocks[tailBlock.value := blocks[tailBlock.value].(empty := NoFlags())];
      SizeBound(bits);
      Publish();
      v := Rotated(v);
    }

    method AddBlock()
      requires Registers() && Slots() && Blocks() && slotsUsed < |entries|
      requires v.enqueued == Base(v, |v.ring|) && BLOCK_SIZE * (|v.ring| + 1) <= HALF
      modifies this`tailBlock, this`blocks, this`entries, this`newest, this`slotsUsed, this`front, this`v
      ensures Registers() && Slots() && Blocks() && v == Extended(old(v), |old(blocks)|)
    {
      var b := |blocks|;
      ExtendRing(blocks, v);
      PublishFresh(entries, v, bits, slotsUsed, front, newest, b);
      blocks := Linked(blocks, tailBlock);
      tailBlock := Some(b);
      slotsUsed := slotsUsed + 1;
      SizeBound(bits);
      Publish();
      v := Extended(v, b);
    }

    /** Constructs the element in the tail block and advances the tail. */
    method PutTail(x: T)
      requires Registers() && Slots() && Blocks()
      requires v.ring != [] && v.enqueued == Base(v, |v.ring| - 1) + tailIndex % BLOCK_SIZE
      modifies this`tailIndex, this`blocks, this`v
      ensures Valid() && v == old(v).(enqueued := old(v.enqueued) + 1, contents := old(v.contents) + [x])
    {
      PutElement(blocks, v, tailBlock.value, tailIndex % BLOCK_SIZE, x);
      WrapSum(v.enqueued, 1);
      blocks := SetElement(blocks, tailBlock.value, tailIndex % BLOCK_SIZE, Some(x));
      tailIndex := Wrap(tailIndex + 1);
      ghost var v' := v.(enqueued := v.enqueued + 1, contents := v.contents + [x]);
      SlotsSame(entries, v, v', bits, slotsUsed, front, newest);
      v := v';
    }

    /** Refuses an element exactly when the tail block is full, no block can be reused and 2^63 - 32 are queued. */
    method Enqueue(x: T) returns (ok: bool)
      requires Valid()
      modifies this
      ensures Valid()
      ensures ok <==> QueueSpec.Admits(old(State()))
      ensures State() == QueueSpec.Put(old(State()), x)
    {
      AtBoundary(v);
      WrapOffset(v.enqueued);
      if tailIndex % BLOCK_SIZE == 0 {
        ok := StartBlock();
        if !ok {
          return;
        }
        BlockStart(v);
      }
      PutTail(x);
      ok := true;
    }

    /** `size_approx`, exact when no operation is under way, except that 2^63 elements read as none. */
    function SizeApprox(): (size: nat)
      requires Counted()
      reads this
      ensures size == if |Contents()| < HALF then |Contents()| else 0
    {
      QueuedCount(v);
      if CircularLess(headIndex, tailIndex) then Wrap(tailIndex as int - headIndex) else 0
    }

    /** Claims the head index, finds its block and moves the element out. */
    method TakeHead() returns (element: Option<T>)
      requires Slots() && Blocks() && headIndex == Wrap(v.dequeued) && tailIndex == Wrap(v.enqueued)
      requires v.contents != []
      modifies this`headIndex, this`blocks, this`v
      ensures Slots() && Blocks() && headIndex == Wrap(v.dequeued) == Wrap(old(headIndex) + 1)
      ensures element == Some(old(v.contents[0]))
      ensures v == old(v).(dequeued := old(v.dequeued) + 1, contents := old(v.contents)[1..])
    {
      var index := headIndex;
      WrapSum(v.dequeued, 1);
      headIndex := Wrap(headIndex + 1);
      ghost var i := FindHead(entries, v, bits, slotsUsed, front, newest, index);
      var slot := ComputedSlot(index, entries[newest].base, newest, BLOCK_SIZE, |entries|);
      element := TakeFrom(entries[slot].block, index % BLOCK_SIZE, i);
    }

    /** Moves an element out of its block and flags its slot. */
    method TakeFrom(b: nat, o: nat, ghost i: nat) returns (element: Option<T>)
      requires Slots() && Blocks() && v.contents != []
      requires i < |v.ring| && b == v.ring[i] && o < BLOCK_SIZE && v.dequeued == Base(v, i) + o
      modifies this`blocks, this`v
      ensures Slots() && Blocks() && element == Some(old(v.contents[0]))
      ensures v == old(v).(dequeued := old(v.dequeued) + 1, contents := old(v.contents)[1..])
    {
      TakeElement(blocks, v, i, b, o);
      ghost var v' := v.(dequeued := v.dequeued + 1, contents := v.contents[1..]);
      SlotsSame(entries, v, v', bits, slotsUsed, front, newest);
      element := blocks[b].elements[o];
      blocks := blocks[b := Emptied(blocks[b], o)];
      v := v';
    }

    /** Fails exactly on the empty queue, and on one of 2^63 elements, which looks empty to the wrapped comparison. */
    method Dequeue() returns (ok: bool, element: Option<T>)
      requires Valid()
      modifies this
      ensures Valid()
      ensures ok <==> 0 < |old(Contents())| < HALF
      ensures element == if ok then Some(old(Contents())[0]) else None
      ensures State() == QueueSpec.Take(old(State()))
    {
      var tail := tailIndex;
      var over: int := overcommit;
      NonemptyTest(v);
      ok, element := false, None;
      if CircularLess(Wrap(optimistic - over), tail) {
        var count: int := optimistic;
        optimistic := Wrap(optimistic + 1);
        tail := tailIndex;
        if CircularLess(Wrap(count - over), tail) {
          TicketTaken(count, over);
          element := TakeHead();
          ok := true;
        } else {
          // The count given back in this branch matters only to concurrent consumers.
          assert false;
        }
      }
    }
  }

  lemma SizeBound(bits: nat)
    requires bits <= 59
    ensures Pow2(bits) < TWO_64
  {
    Pow2Of64();
    Pow2Monotone(bits, 60);
    Pow2Monotone(60, 63);
  }

  /** The loop of `new_block_index`: copies the entries of a full index, oldest first, into one twice the size. */
  method CopyEntries(entries: seq<Entry>, front: nat, slotsUsed: nat, ghost slot: nat)
      returns (larger: seq<Entry>, j: nat)
    requires slotsUsed == |entries| > 0 && front == SlotAt(slot + slotsUsed, |entries|)
    ensures |larger| == 2 * |entries| && j == |entries|
    ensures forall m | 0 <= m < |entries| :: larger[m] == entries[SlotAt(slot + m, |entries|)]
  {
    var size := |entries|;
    larger := seq(2 * size, _ => Entry(0, 0));
    var i := (front - slotsUsed) % size;
    OldestSlot(slot, size);
    larger := larger[0 := entries[i]];
    j := 1;
    NextSlot(slot, size);
    i := (i + 1) % size;
    while i != front
      invariant 1 <= j <= size && |larger| == 2 * size
      invariant i == SlotAt(slot + j, size)
      invariant forall m | 0 <= m < j :: larger[m] == entries[SlotAt(slot + m, size)]
      decreases size - j
    {
      if j == size {
        assert false;
      }
      larger := larger[j := entries[i]];
      NextSlot(slot + j, size);
      j := j + 1;
      i := (i + 1) % size;
    }
    if j < size {
      SlotsDistinct(slot, slot + j, size);
    }
  }

  /** In a full index the next slot to write is the oldest one. */
  lemma OldestSlot(slot: nat, size: nat)
    requires size > 0
    ensures (SlotAt(slot + size, size) - size) % size == SlotAt(slot, size) == SlotAt(slot + size, size)
  {
    var front := SlotAt(slot + size, size);
    ModShift(front, -1, size);
    DivModUnique(front, size, 0, front);
  }

  lemma NextSlot(x: nat, size: nat)
    requires size > 0
    ensures (SlotAt(x, size) + 1) % size == SlotAt(x + 1, size)
  {
    SlotAtIsMod(x, size);
    SlotAtIsMod(x + 1, size);
    var q := x / size;
    assert x + 1 == (x % size + 1) + q * size;
    ModShift(x % size + 1, q, size);
  }

  // ---- Whole runs

  /** Every run of enqueues and dequeues, however long: each call has the outcome the specification gives it. */
  method PlayRun<T>(ops: seq<QueueSpec.Operation<T>>) returns (outcomes: seq<QueueSpec.Outcome<T>>, size: nat)
    ensures outcomes == QueueSpec.Outcomes(ops)
    ensures var q := QueueSpec.After(ops);
            size == if QueueSpec.Offers(q) then |q.contents| else 0
  {
    var p := new ExplicitProducer<T>();
    outcomes := [];
    var i := 0;
    while i < |ops|
      invariant i <= |ops| && p.Valid() && fresh(p)
      invariant p.State() == QueueSpec.After(ops[..i]) && outcomes == QueueSpec.Outcomes(ops[..i])
    {
      assert ops[..i + 1][..i] == ops[..i];
      var outcome := PlayOne(p, ops[i]);
      outcomes := outcomes + [outcome];
      i := i + 1;
    }
    assert ops[..i] == ops;
    size := p.SizeApprox();
  }

  method PlayOne<T>(p: ExplicitProducer<T>, op: QueueSpec.Operation<T>) returns (outcome: QueueSpec.Outcome<T>)
    requires p.Valid()
    modifies p
    ensures p.Valid() && p.State() == QueueSpec.Apply(old(p.State()), op)
    ensures outcome == QueueSpec.Result(old(p.State()), op)
  {
    match op
    case Enqueue(x) =>
      var ok := p.Enqueue(x);
      outcome := if ok then QueueSpec.Accepted else QueueSpec.Refused;
    case Dequeue =>
      var ok, element := p.Dequeue();
      outcome := if ok then QueueSpec.Got(element.value) else QueueSpec.Nothing;
  }
}
