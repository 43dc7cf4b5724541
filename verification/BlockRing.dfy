/**
  The data structure behind the explicit producer (common/concurrentqueue.h, `ExplicitProducer`): a circular linked
  list of blocks, the newest of which is the tail block, and a circular index of the blocks' base indices. Block
  pointers are positions in an arena. `View` describes a state abstractly; the lemmas say how each elementary change
  of the blocks or of the index changes the view.
 */
module BlockRing {
  import opened Arithmetic
  import opened CircularIndex
  import opened Words
  import opened Wrappers

  const BLOCK_SIZE: nat := 32
  const INITIAL_INDEX_SIZE: nat := 32

  /** `empty` is `emptyFlags`, which the code indexes from the end. A slot without a constructed element is None. */
  datatype Block<T> = Block(next: nat, elements: seq<Option<T>>, empty: seq<bool>)

  datatype Entry = Entry(base: Index, block: nat)

  /**
    ring: the blocks, oldest first; `first` is the block number of the oldest one, so its base is
    BLOCK_SIZE * first. `slot` is the unbounded index position of the oldest block. `enqueued` and `dequeued`
    count operations since the beginning; `contents` is the queue.
   */
  datatype View<T> = View(
    ring: seq<nat>,
    first: nat,
    slot: nat,
    enqueued: nat,
    dequeued: nat,
    contents: seq<T>)

  function Base<T>(v: View<T>, i: nat): nat {
    BLOCK_SIZE * (v.first + i)
  }

  /** What the slot for the j-th element ever enqueued holds. */
  function SlotValue<T>(v: View<T>, j: nat): Option<T> {
    if v.dequeued <= j < v.enqueued && j - v.dequeued < |v.contents| then Some(v.contents[j - v.dequeued]) else None
  }

  ghost predicate RingOk<T>(blocks: seq<Block<T>>, ring: seq<nat>) {
    && (forall i | 0 <= i < |ring| :: ring[i] < |blocks|)
    && (forall i, j | 0 <= i < j < |ring| :: ring[i] != ring[j])
    && (forall i, j | 0 <= i < |ring| && 0 <= j < |ring| && j == (if i == |ring| - 1 then 0 else i + 1) ::
          blocks[ring[i]].next == ring[j])
    && (forall i | 0 <= i < |ring| :: |blocks[ring[i]].elements| == BLOCK_SIZE == |blocks[ring[i]].empty|)
  }

  predicate Flag<T>(b: Block<T>, o: nat)
    requires o < BLOCK_SIZE == |b.empty|
  {
    b.empty[BLOCK_SIZE - 1 - o]
  }

  /** Block b holds the elements numbered from base on; its flags say which of them are gone. */
  ghost predicate BlockOk<T>(b: Block<T>, v: View<T>, base: nat) {
    && |b.elements| == BLOCK_SIZE == |b.empty|
    && (forall o | 0 <= o < BLOCK_SIZE :: b.elements[o] == SlotValue(v, base + o))
    && (forall o | 0 <= o < BLOCK_SIZE :: Flag(b, o) <==> base + o < v.dequeued)
  }

  ghost predicate BlockAt<T>(blocks: seq<Block<T>>, v: View<T>, i: nat)
    requires i < |v.ring| && v.ring[i] < |blocks|
  {
    BlockOk(blocks[v.ring[i]], v, Base(v, i))
  }

  ghost predicate DataOk<T>(blocks: seq<Block<T>>, v: View<T>) {
    && RingOk(blocks, v.ring)
    && forall i | 0 <= i < |v.ring| :: BlockAt(blocks, v, i)
  }

  /** The position in a circular index of `size` slots: x modulo size, by repeated subtraction. */
  function SlotAt(x: nat, size: nat): (s: nat)
    requires size > 0
    ensures s < size
  {
    if x < size then x else SlotAt(x - size, size)
  }

  lemma {:induction false} SlotAtIsMod(x: nat, size: nat)
    requires size > 0
    ensures SlotAt(x, size) == x % size
  {
    if x < size {
      DivModUnique(x, size, 0, x);
    } else {
      SlotAtIsMod(x - size, size);
      ModShift(x - size, 1, size);
    }
  }

  lemma SlotsDistinct(a: nat, b: nat, size: nat)
    requires size > 0 && a < b < a + size
    ensures SlotAt(a, size) != SlotAt(b, size)
  {
    SlotAtIsMod(a, size);
    SlotAtIsMod(b, size);
    ModDistinct(a, b, size);
  }

  ghost predicate EntryOk<T>(entries: seq<Entry>, v: View<T>, i: nat)
    requires i < |v.ring| && |entries| > 0
  {
    entries[SlotAt(v.slot + i, |entries|)] == Entry(Wrap(Base(v, i)), v.ring[i])
  }

  /** The newest |ring| entries of the index name the ring's blocks with consecutive bases. */
  ghost predicate IndexOk<T>(entries: seq<Entry>, v: View<T>) {
    && |v.ring| <= |entries| && |entries| > 0
    && forall i | 0 <= i < |v.ring| :: EntryOk(entries, v, i)
  }

  /** All queued elements lie in the ring. */
  ghost predicate CountsOk<T>(v: View<T>) {
    && v.dequeued <= v.enqueued
    && |v.contents| == v.enqueued - v.dequeued
    && (v.ring == [] ==> v.enqueued == 0 && v.first == 0)
    && (v.ring != [] ==> Base(v, 0) <= v.dequeued && Base(v, |v.ring| - 1) <= v.enqueued <= Base(v, |v.ring|))
    && BLOCK_SIZE * |v.ring| <= HALF
  }

  // ---- Elementary changes

  function SetElement<T>(blocks: seq<Block<T>>, b: nat, o: nat, e: Option<T>): seq<Block<T>>
    requires b < |blocks| && o < |blocks[b].elements|
  {
    blocks[b := blocks[b].(elements := blocks[b].elements[o := e])]
  }

  /** The blocks are linked as before. */
  ghost predicate SameLinks<T>(blocks: seq<Block<T>>, blocks': seq<Block<T>>) {
    && |blocks'| == |blocks|
    && forall b | 0 <= b < |blocks| ::
         && blocks'[b].next == blocks[b].next
         && |blocks'[b].elements| == |blocks[b].elements|
         && |blocks'[b].empty| == |blocks[b].empty|
  }

  lemma RingSame<T>(blocks: seq<Block<T>>, blocks': seq<Block<T>>, ring: seq<nat>)
    requires RingOk(blocks, ring) && SameLinks(blocks, blocks')
    ensures RingOk(blocks', ring)
  {
  }

  /** Constructing an element in the tail block appends it to the queue. */
  lemma PutElement<T>(blocks: seq<Block<T>>, v: View<T>, tail: nat, o: nat, x: T)
    requires CountsOk(v) && DataOk(blocks, v) && v.ring != [] && tail == v.ring[|v.ring| - 1]
    requires o < BLOCK_SIZE && v.enqueued == Base(v, |v.ring| - 1) + o
    ensures tail < |blocks| && |blocks[tail].elements| == BLOCK_SIZE
    ensures var v' := v.(enqueued := v.enqueued + 1, contents := v.contents + [x]);
            CountsOk(v') && DataOk(SetElement(blocks, tail, o, Some(x)), v')
  {
    var k := |v.ring|;
    var v' := v.(enqueued := v.enqueued + 1, contents := v.contents + [x]);
    var blocks' := SetElement(blocks, tail, o, Some(x));
    RingSame(blocks, blocks', v.ring);
    forall i | 0 <= i < k ensures BlockAt(blocks', v', i) {
      assert BlockAt(blocks, v, i);
      PutBlock(blocks[v.ring[i]], blocks'[v.ring[i]], v, v', Base(v, i), i == k - 1, o, x);
    }
  }

  lemma PutBlock<T>(b: Block<T>, b': Block<T>, v: View<T>, v': View<T>, base: nat, hit: bool, o: nat, x: T)
    requires BlockOk(b, v, base) && CountsOk(v) && o < BLOCK_SIZE
    requires v' == v.(enqueued := v.enqueued + 1, contents := v.contents + [x])
    requires hit <==> base <= v.enqueued < base + BLOCK_SIZE
    requires hit ==> v.enqueued == base + o
    requires b' == if hit then b.(elements := b.elements[o := Some(x)]) else b
    ensures BlockOk(b', v', base)
  {
    forall p | 0 <= p < BLOCK_SIZE ensures b'.elements[p] == SlotValue(v', base + p) {
      assert b.elements[p] == SlotValue(v, base + p);
    }
    forall p | 0 <= p < BLOCK_SIZE ensures Flag(b', p) <==> base + p < v'.dequeued {
      assert Flag(b, p) <==> base + p < v.dequeued;
    }
  }

  function Emptied<T>(b: Block<T>, o: nat): Block<T>
    requires o < BLOCK_SIZE == |b.elements| == |b.empty|
  {
    b.(elements := b.elements[o := None], empty := b.empty[BLOCK_SIZE - 1 - o := true])
  }

  /** The ring position of the oldest queued element. */
  lemma LocateHead<T>(v: View<T>)
    requires CountsOk(v) && v.contents != []
    ensures v.first <= v.dequeued / BLOCK_SIZE < v.first + |v.ring|
    ensures v.dequeued == Base(v, v.dequeued / BLOCK_SIZE - v.first) + v.dequeued % BLOCK_SIZE
  {
  }

  /** Moving the oldest element out and flagging its slot removes it from the queue. */
  lemma TakeElement<T>(blocks: seq<Block<T>>, v: View<T>, i: nat, b: nat, o: nat)
    requires CountsOk(v) && DataOk(blocks, v) && v.contents != []
    requires i < |v.ring| && b == v.ring[i] && o < BLOCK_SIZE && v.dequeued == Base(v, i) + o
    ensures b < |blocks| && |blocks[b].elements| == BLOCK_SIZE == |blocks[b].empty|
    ensures blocks[b].elements[o] == Some(v.contents[0]) && !Flag(blocks[b], o)
    ensures var v' := v.(dequeued := v.dequeued + 1, contents := v.contents[1..]);
            CountsOk(v') && DataOk(blocks[b := Emptied(blocks[b], o)], v')
  {
    var v' := v.(dequeued := v.dequeued + 1, contents := v.contents[1..]);
    assert BlockAt(blocks, v, i);
    var blocks' := blocks[b := Emptied(blocks[b], o)];
    RingSame(blocks, blocks', v.ring);
    forall m | 0 <= m < |v.ring| ensures BlockAt(blocks', v', m) {
      assert BlockAt(blocks, v, m);
      TakeBlock(blocks[v.ring[m]], blocks'[v.ring[m]], v, v', Base(v, m), m == i, o);
    }
  }

  lemma TakeBlock<T>(b: Block<T>, b': Block<T>, v: View<T>, v': View<T>, base: nat, hit: bool, o: nat)
    requires BlockOk(b, v, base) && CountsOk(v) && v.contents != [] && o < BLOCK_SIZE
    requires v' == v.(dequeued := v.dequeued + 1, contents := v.contents[1..])
    requires hit <==> base <= v.dequeued < base + BLOCK_SIZE
    requires hit ==> v.dequeued == base + o
    requires b' == if hit then Emptied(b, o) else b
    ensures BlockOk(b', v', base)
  {
    forall p | 0 <= p < BLOCK_SIZE ensures b'.elements[p] == SlotValue(v', base + p) {
      assert b.elements[p] == SlotValue(v, base + p);
    }
    forall p | 0 <= p < BLOCK_SIZE ensures Flag(b', p) <==> base + p < v'.dequeued {
      assert Flag(b, p) <==> base + p < v.dequeued;
    }
  }

  /** The oldest block can be reused exactly when all its elements have been dequeued. */
  lemma OldestIsEmpty<T>(blocks: seq<Block<T>>, v: View<T>)
    requires CountsOk(v) && DataOk(blocks, v) && v.ring != []
    ensures v.ring[0] < |blocks| && |blocks[v.ring[0]].empty| == BLOCK_SIZE
    ensures (forall i | 0 <= i < BLOCK_SIZE :: blocks[v.ring[0]].empty[i]) <==> Base(v, 1) <= v.dequeued
  {
    var b := blocks[v.ring[0]];
    assert BlockAt(blocks, v, 0);
    if forall i | 0 <= i < BLOCK_SIZE :: b.empty[i] {
      assert Flag(b, BLOCK_SIZE - 1);
    }
    if Base(v, 1) <= v.dequeued {
      forall i | 0 <= i < BLOCK_SIZE ensures b.empty[i] {
        assert Flag(b, BLOCK_SIZE - 1 - i);
      }
    }
  }

  // ---- Starting a new tail block

  function NoFlags(): seq<bool> {
    seq(BLOCK_SIZE, _ => false)
  }

  /** The view once the emptied oldest block has become the tail block. */
  function Rotated<T>(v: View<T>): View<T>
    requires v.ring != []
  {
    v.(ring := v.ring[1..] + [v.ring[0]], first := v.first + 1, slot := v.slot + 1)
  }

  lemma RotateRing<T>(blocks: seq<Block<T>>, ring: seq<nat>)
    requires RingOk(blocks, ring) && ring != []
    ensures RingOk(blocks, ring[1..] + [ring[0]])
  {
    var k, ring' := |ring|, ring[1..] + [ring[0]];
    forall i | 0 <= i < k ensures ring'[i] == ring[if i == k - 1 then 0 else i + 1] {
    }
    forall i | 0 <= i < k ensures blocks[ring'[i]].next == if i == k - 1 then ring'[0] else ring'[i + 1] {
      if i == k - 1 {
        assert ring'[i] == ring[0];
      } else if i == k - 2 {
        assert ring'[i] == ring[k - 1];
      } else {
        assert ring'[i] == ring[i + 1] && ring'[i + 1] == ring[i + 2];
      }
    }
  }

  lemma ReuseOldest<T>(blocks: seq<Block<T>>, v: View<T>)
    requires CountsOk(v) && DataOk(blocks, v) && v.ring != []
    requires v.enqueued == Base(v, |v.ring|) && Base(v, 1) <= v.dequeued
    ensures v.ring[0] < |blocks|
    ensures CountsOk(Rotated(v))
    ensures DataOk(blocks[v.ring[0] := blocks[v.ring[0]].(empty := NoFlags())], Rotated(v))
  {
    var k := |v.ring|;
    var v' := Rotated(v);
    var blocks' := blocks[v.ring[0] := blocks[v.ring[0]].(empty := NoFlags())];
    RingSame(blocks, blocks', v.ring);
    RotateRing(blocks', v.ring);
    forall i | 0 <= i < k ensures BlockAt(blocks', v', i) {
      if i == k - 1 {
        assert BlockAt(blocks, v, 0);
        ReusedBlock(blocks[v.ring[0]], blocks'[v.ring[0]], v, v', Base(v, 0), Base(v', i));
      } else {
        assert BlockAt(blocks, v, i + 1);
      }
    }
  }

  lemma ReusedBlock<T>(b: Block<T>, b': Block<T>, v: View<T>, v': View<T>, base: nat, base': nat)
    requires BlockOk(b, v, base) && b' == b.(empty := NoFlags()) && CountsOk(v)
    requires v'.enqueued == v.enqueued && v'.dequeued == v.dequeued && v'.contents == v.contents
    requires base + BLOCK_SIZE <= v.dequeued <= v.enqueued == base'
    ensures BlockOk(b', v', base')
  {
    forall p | 0 <= p < BLOCK_SIZE ensures b'.elements[p] == SlotValue(v', base' + p) {
      assert b.elements[p] == SlotValue(v, base + p);
    }
    forall p | 0 <= p < BLOCK_SIZE ensures Flag(b', p) <==> base' + p < v'.dequeued {
    }
  }

  lemma RotateIndex<T>(entries: seq<Entry>, v: View<T>)
    requires IndexOk(entries, v) && v.ring != []
    ensures var s := SlotAt(v.slot + |v.ring|, |entries|);
            IndexOk(entries[s := Entry(Wrap(Base(v, |v.ring|)), v.ring[0])], Rotated(v))
  {
    var k, n := |v.ring|, |entries|;
    var s := SlotAt(v.slot + k, n);
    var v' := Rotated(v);
    var entries' := entries[s := Entry(Wrap(Base(v, k)), v.ring[0])];
    forall i | 0 <= i < k ensures EntryOk(entries', v', i) {
      if i < k - 1 {
        assert EntryOk(entries, v, i + 1);
        SlotsDistinct(v.slot + (i + 1), v.slot + k, n);
      }
    }
  }

  /** The view once a fresh block (at the end of the arena) has become the tail block. */
  function Extended<T>(v: View<T>, b: nat): View<T> {
    v.(ring := v.ring + [b])
  }

  function TailOf(ring: seq<nat>): Option<nat> {
    if ring == [] then None else Some(ring[|ring| - 1])
  }

  /** Links a fresh block in behind the tail block. */
  function Linked<T>(blocks: seq<Block<T>>, tail: Option<nat>): seq<Block<T>>
    requires tail.Some? ==> tail.value < |blocks|
  {
    var b := |blocks|;
    var unused := Block(b, seq(BLOCK_SIZE, _ => None), NoFlags());
    if tail.None? then blocks + [unused]
    else blocks[tail.value := blocks[tail.value].(next := b)] + [unused.(next := blocks[tail.value].next)]
  }

  lemma LinkRing<T>(blocks: seq<Block<T>>, ring: seq<nat>)
    requires RingOk(blocks, ring)
    ensures RingOk(Linked(blocks, TailOf(ring)), ring + [|blocks|])
  {
    var k, b, ring' := |ring|, |blocks|, ring + [|blocks|];
    var blocks' := Linked(blocks, TailOf(ring));
    forall i | 0 <= i < k + 1 ensures blocks'[ring'[i]].next == if i == k then ring'[0] else ring'[i + 1] {
      if i < k {
        assert blocks[ring[i]].next == if i == k - 1 then ring[0] else ring[i + 1];
      }
    }
  }

  lemma ExtendRing<T>(blocks: seq<Block<T>>, v: View<T>)
    requires CountsOk(v) && DataOk(blocks, v)
    requires v.enqueued == Base(v, |v.ring|) && BLOCK_SIZE * (|v.ring| + 1) <= HALF
    ensures CountsOk(Extended(v, |blocks|))
    ensures DataOk(Linked(blocks, TailOf(v.ring)), Extended(v, |blocks|))
  {
    var v' := Extended(v, |blocks|);
    var blocks' := Linked(blocks, TailOf(v.ring));
    LinkRing(blocks, v.ring);
    forall i | 0 <= i < |v'.ring| ensures BlockAt(blocks', v', i) {
      ExtendBlock(blocks, v, i);
    }
  }

  lemma ExtendBlock<T>(blocks: seq<Block<T>>, v: View<T>, i: nat)
    requires CountsOk(v) && DataOk(blocks, v) && v.enqueued == Base(v, |v.ring|) && i <= |v.ring|
    ensures Extended(v, |blocks|).ring[i] < |Linked(blocks, TailOf(v.ring))|
    ensures BlockAt(Linked(blocks, TailOf(v.ring)), Extended(v, |blocks|), i)
  {
    var v', blocks' := Extended(v, |blocks|), Linked(blocks, TailOf(v.ring));
    LinkKeeps(blocks, TailOf(v.ring));
    if i < |v.ring| {
      assert BlockAt(blocks, v, i);
      MovedBlock(blocks[v.ring[i]], blocks'[v.ring[i]], v, v', Base(v, i));
    } else {
      FreshBlock(blocks'[|blocks|], v', Base(v', i));
    }
  }

  lemma LinkKeeps<T>(blocks: seq<Block<T>>, tail: Option<nat>)
    requires tail.Some? ==> tail.value < |blocks|
    ensures |Linked(blocks, tail)| == |blocks| + 1
    ensures forall b | 0 <= b < |blocks| ::
              && Linked(blocks, tail)[b].elements == blocks[b].elements
              && Linked(blocks, tail)[b].empty == blocks[b].empty
    ensures Linked(blocks, tail)[|blocks|].elements == seq(BLOCK_SIZE, _ => None)
    ensures Linked(blocks, tail)[|blocks|].empty == NoFlags()
  {
  }

  lemma MovedBlock<T>(b: Block<T>, b': Block<T>, v: View<T>, v': View<T>, base: nat)
    requires BlockOk(b, v, base) && b'.elements == b.elements && b'.empty == b.empty
    requires v'.enqueued == v.enqueued && v'.dequeued == v.dequeued && v'.contents == v.contents
    ensures BlockOk(b', v', base)
  {
    forall p | 0 <= p < BLOCK_SIZE ensures b'.elements[p] == SlotValue(v', base + p) {
      assert b.elements[p] == SlotValue(v, base + p);
    }
    forall p | 0 <= p < BLOCK_SIZE ensures Flag(b', p) <==> base + p < v'.dequeued {
      assert Flag(b, p) <==> base + p < v.dequeued;
    }
  }

  /** Where the index starts does not matter to the blocks. */
  lemma DataMoved<T>(blocks: seq<Block<T>>, v: View<T>, v': View<T>)
    requires DataOk(blocks, v) && v' == v.(slot := v'.slot)
    ensures DataOk(blocks, v')
  {
    forall i | 0 <= i < |v'.ring| ensures BlockAt(blocks, v', i) {
      assert BlockAt(blocks, v, i);
      MovedBlock(blocks[v.ring[i]], blocks[v.ring[i]], v, v', Base(v, i));
    }
  }

  lemma FreshBlock<T>(b: Block<T>, v: View<T>, base: nat)
    requires b.elements == seq(BLOCK_SIZE, _ => None) && b.empty == NoFlags()
    requires v.dequeued <= v.enqueued <= base
    ensures BlockOk(b, v, base)
  {
  }

  lemma ExtendIndex<T>(entries: seq<Entry>, v: View<T>, b: nat)
    requires IndexOk(entries, v) && |v.ring| < |entries|
    ensures var s := SlotAt(v.slot + |v.ring|, |entries|);
            IndexOk(entries[s := Entry(Wrap(Base(v, |v.ring|)), b)], Extended(v, b))
  {
    var k, n := |v.ring|, |entries|;
    var v' := Extended(v, b);
    var entries' := entries[SlotAt(v.slot + k, n) := Entry(Wrap(Base(v, k)), b)];
    forall i | 0 <= i < k + 1 ensures EntryOk(entries', v', i) {
      if i < k {
        assert EntryOk(entries, v, i);
        SlotsDistinct(v.slot + i, v.slot + k, n);
      }
    }
  }

  /** Copying the used entries to the front of a larger index. */
  lemma MoveIndex<T>(entries: seq<Entry>, larger: seq<Entry>, v: View<T>)
    requires IndexOk(entries, v) && |v.ring| <= |larger| && |larger| > 0
    requires forall i | 0 <= i < |v.ring| :: larger[i] == entries[SlotAt(v.slot + i, |entries|)]
    ensures IndexOk(larger, v.(slot := 0))
  {
    var v' := v.(slot := 0);
    forall i | 0 <= i < |v.ring| ensures EntryOk(larger, v', i) {
      assert EntryOk(entries, v, i);
    }
  }
}
