/**
  Whole runs of the profiler's worker (server/src/worker_thread.cpp): allocations are queued by the application,
  the worker takes queued items one at a time, and garbage-collection passes run between worker steps. The queue
  is first-in first-out and the two counters wrap at 2^64.
 */
module ShadowRuns {
  import opened HeapGraph
  import opened Marking
  import opened Words
  import opened Wrappers

  /** `stopword`: the backtrace contains a word from the stop list, so the allocation is not tracked. */
  datatype Item =
    | AllocItem(frame: nat, addr: Addr, size: nat, stopword: bool)
    | FreeItem(frame: nat, addr: Addr, size: nat)

  datatype Event =
    | Allocated(frame: nat, addr: Addr, size: nat)
    | Freed(frame: nat, addr: Addr, size: nat)

  datatype Shadow = Shadow(heap: Heap, items: seq<Item>, events: seq<Event>, allocatedBytes: Word64, freedBytes: Word64)

  function Empty(): Shadow {
    Shadow(map[], [], [], 0, 0)
  }

  // ---- Steps

  /** The worker processes the item at the head of the queue. */
  function Work(s: Shadow): Shadow
    requires s.items != []
  {
    var rest := s.(items := s.items[1..]);
    match s.items[0]
    case FreeItem(frame, addr, size) =>
      rest.(events := s.events + [Freed(frame, addr, size)], freedBytes := Wrap(s.freedBytes + size))
    case AllocItem(frame, addr, size, stopword) =>
      if stopword then rest
      else if addr !in s.heap then
        rest.(heap := s.heap[addr := Info(size, false, false, false, [])],
              events := s.events + [Allocated(frame, addr, size)],
              allocatedBytes := Wrap(s.allocatedBytes + size))
      else // a reallocation: the free was missed
        rest.(heap := s.heap[addr := s.heap[addr].(size := size)],
              events := s.events + [Freed(frame, addr, s.heap[addr].size), Allocated(frame, addr, size)],
              freedBytes := Wrap(s.freedBytes + s.heap[addr].size),
              allocatedBytes := Wrap(s.allocatedBytes + size))
  }

  /** Dropping the objects named by the free items `frees`, one after the other, turns h into h'. */
  ghost predicate Sweeps(h: Heap, h': Heap, frees: seq<Item>, frame: nat)
    decreases |frees|
  {
    if frees == [] then SameObjects(h, h')
    else
      && frees[0].FreeItem? && frees[0].frame == frame
      && frees[0].addr in h && frees[0].size == h[frees[0].addr].size
      && Sweeps(h - {frees[0].addr}, h', frees[1..], frame)
  }

  lemma {:induction false} SweepsAppend(h: Heap, h': Heap, frees: seq<Item>, frame: nat, x: Addr)
    requires Sweeps(h, h', frees, frame) && x in h'
    ensures Sweeps(h, h' - {x}, frees + [FreeItem(frame, x, h'[x].size)], frame)
    decreases |frees|
  {
    var item := FreeItem(frame, x, h'[x].size);
    if frees == [] {
      assert [item][1..] == [];
    } else {
      assert (frees + [item])[1..] == frees[1..] + [item];
      SweepsAppend(h - {frees[0].addr}, h', frees[1..], frame, x);
    }
  }

  /** A sweep only looks at which objects there are and at their sizes. */
  lemma {:induction false} SweepsFrom(a: Heap, b: Heap, h': Heap, frees: seq<Item>, frame: nat)
    requires SameObjects(a, b) && Sweeps(b, h', frees, frame)
    ensures Sweeps(a, h', frees, frame)
    decreases |frees|
  {
    if frees != [] {
      SweepsFrom(a - {frees[0].addr}, b - {frees[0].addr}, h', frees[1..], frame);
    }
  }

  function Survivors(h: Heap): Heap {
    map x | x in h && h[x].marked :: h[x]
  }

  /**
    A pass over a memory snapshot: marking turns the heap into `marked`; unless only the parents are wanted, the
    unmarked objects are dropped, in any order, and queued as freed.
   */
  datatype Pass = Pass(
    roots: seq<Root>,
    word: Memory,
    frame: nat,
    parentsOnly: bool,
    marked: Heap,
    frees: seq<Item>,
    after: Heap)

  ghost predicate Collects(h: Heap, p: Pass) {
    && MarkResult(h, p.roots, p.word, p.marked)
    && if p.parentsOnly then p.frees == [] && p.after == p.marked
       else Sweeps(p.marked, p.after, p.frees, p.frame) && p.after == Survivors(p.marked)
  }

  lemma PassSweeps(h: Heap, p: Pass)
    requires Collects(h, p)
    ensures Sweeps(h, p.after, p.frees, p.frame)
  {
    if !p.parentsOnly {
      SweepsFrom(h, p.marked, p.after, p.frees, p.frame);
    }
  }

  lemma PassTracksParents(h: Heap, p: Pass)
    requires Collects(h, p)
    ensures ParentsTracked(p.after)
  {
    ParentsAreMarked(h, p.roots, p.word, p.marked);
  }

  datatype Action = Enqueue(item: Item) | DoWork | Collect(pass: Pass)

  ghost predicate Enabled(s: Shadow, a: Action) {
    match a
    case Enqueue(item) => item.AllocItem?
    case DoWork => s.items != []
    case Collect(p) => Collects(s.heap, p)
  }

  function Apply(s: Shadow, a: Action): Shadow
    requires a.DoWork? ==> s.items != []
  {
    match a
    case Enqueue(item) => s.(items := s.items + [item])
    case DoWork => Work(s)
    case Collect(p) => s.(heap := p.after, items := s.items + p.frees)
  }

  ghost predicate Runs(s: Shadow, actions: seq<Action>)
    decreases |actions|
  {
    actions == [] || (Enabled(s, actions[0]) && Runs(Apply(s, actions[0]), actions[1..]))
  }

  ghost function After(s: Shadow, actions: seq<Action>): Shadow
    requires Runs(s, actions)
    decreases |actions|
  {
    if actions == [] then s else After(Apply(s, actions[0]), actions[1..])
  }

  // ---- Conservation of bytes

  ghost function SumSizes(h: Heap): nat
    decreases |h.Keys|
  {
    if h == map[] then 0
    else
      var x :| x in h;
      assert (h - {x}).Keys == h.Keys - {x};
      h[x].size + SumSizes(h - {x})
  }

  /** The sum does not depend on the order in which objects are taken out. */
  lemma {:induction false} SumSizesRemove(h: Heap, x: Addr)
    requires x in h
    ensures SumSizes(h) == h[x].size + SumSizes(h - {x})
    decreases |h.Keys|
  {
    var y :| y in h && SumSizes(h) == h[y].size + SumSizes(h - {y});
    if x != y {
      assert (h - {y}).Keys == h.Keys - {y} && (h - {x}).Keys == h.Keys - {x};
      SumSizesRemove(h - {y}, x);
      SumSizesRemove(h - {x}, y);
      assert h - {y} - {x} == h - {x} - {y};
    }
  }

  lemma SumSizesPut(h: Heap, x: Addr, i: Info)
    ensures SumSizes(h[x := i]) == i.size + SumSizes(h - {x})
  {
    SumSizesRemove(h[x := i], x);
    assert h[x := i] - {x} == h - {x};
  }

  lemma {:induction false} SumSizesSame(a: Heap, b: Heap)
    requires SameObjects(a, b)
    ensures SumSizes(a) == SumSizes(b)
    decreases |a.Keys|
  {
    if a != map[] {
      var x :| x in a;
      SumSizesRemove(a, x);
      SumSizesRemove(b, x);
      assert (a - {x}).Keys == a.Keys - {x};
      SumSizesSame(a - {x}, b - {x});
    }
  }

  function QueuedFrees(items: seq<Item>): nat {
    if items == [] then 0
    else (if items[0].FreeItem? then items[0].size else 0) + QueuedFrees(items[1..])
  }

  lemma {:induction false} QueuedFreesConcat(a: seq<Item>, b: seq<Item>)
    ensures QueuedFrees(a + b) == QueuedFrees(a) + QueuedFrees(b)
  {
    if a == [] {
      assert a + b == b;
    } else {
      assert (a + b)[1..] == a[1..] + b;
      QueuedFreesConcat(a[1..], b);
    }
  }

  /** The counters' difference is what is tracked plus what is queued to be freed. */
  ghost predicate Balanced(s: Shadow) {
    Wrap(s.allocatedBytes - s.freedBytes) == Wrap(SumSizes(s.heap) + QueuedFrees(s.items))
  }

  /** Adding the same amount to both sides of a balance modulo 2^64 keeps it. */
  lemma BalanceShift(allocs: int, frees: int, total: int, a: int, f: int)
    requires Wrap(allocs - frees) == Wrap(total)
    ensures Wrap(Wrap(allocs + a) - Wrap(frees + f)) == Wrap(total + a - f)
  {
    WrapDifference(allocs + a, frees + f);
    WrapSum(allocs - frees, a - f);
    WrapSum(total, a - f);
  }

  lemma WorkAllocBalanced(s: Shadow, addr: Addr, size: nat)
    requires Balanced(s) && s.items != [] && s.items[0].AllocItem?
    requires s.items[0].addr == addr && s.items[0].size == size && !s.items[0].stopword
    ensures Balanced(Work(s))
  {
    var total := SumSizes(s.heap) + QueuedFrees(s.items);
    var replaced := if addr in s.heap then s.heap[addr].size else 0;
    SumSizesReplace(s.heap, addr, Work(s).heap[addr]);
    BalanceShift(s.allocatedBytes, s.freedBytes, total, size, replaced);
    WorkAllocCounters(s, addr, size, replaced);
    BalancedWith(Work(s), Wrap(s.allocatedBytes + size), Wrap(s.freedBytes + replaced), total + size - replaced);
  }

  lemma WorkAllocCounters(s: Shadow, addr: Addr, size: nat, replaced: nat)
    requires s.items != [] && s.items[0].AllocItem?
    requires s.items[0].addr == addr && s.items[0].size == size && !s.items[0].stopword
    requires replaced == if addr in s.heap then s.heap[addr].size else 0
    ensures Work(s).allocatedBytes == Wrap(s.allocatedBytes + size)
    ensures Work(s).freedBytes == Wrap(s.freedBytes + replaced)
    ensures Work(s).heap == s.heap[addr := Work(s).heap[addr]] && Work(s).heap[addr].size == size
    ensures QueuedFrees(Work(s).items) == QueuedFrees(s.items)
  {
  }

  lemma BalancedWith(s: Shadow, a: int, f: int, total: int)
    requires s.allocatedBytes == a && s.freedBytes == f && Wrap(a - f) == Wrap(total)
    requires SumSizes(s.heap) + QueuedFrees(s.items) == total
    ensures Balanced(s)
  {
  }

  lemma SumSizesReplace(h: Heap, addr: Addr, info: Info)
    ensures SumSizes(h[addr := info]) == SumSizes(h) + info.size - if addr in h then h[addr].size else 0
  {
    SumSizesPut(h, addr, info);
    if addr in h {
      SumSizesRemove(h, addr);
    } else {
      assert h - {addr} == h;
    }
  }

  lemma WorkBalanced(s: Shadow)
    requires Balanced(s) && s.items != []
    ensures Balanced(Work(s))
  {
    match s.items[0]
    case FreeItem(_, _, size) =>
      BalanceShift(s.allocatedBytes, s.freedBytes, SumSizes(s.heap) + QueuedFrees(s.items), 0, size);
    case AllocItem(_, addr, size, stopword) =>
      if !stopword {
        WorkAllocBalanced(s, addr, size);
      }
  }

  lemma {:induction false} SweepBalanced(h: Heap, h': Heap, frees: seq<Item>, frame: nat)
    requires Sweeps(h, h', frees, frame)
    ensures SumSizes(h) == SumSizes(h') + QueuedFrees(frees)
    decreases |frees|
  {
    if frees == [] {
      SumSizesSame(h, h');
    } else {
      SumSizesRemove(h, frees[0].addr);
      SweepBalanced(h - {frees[0].addr}, h', frees[1..], frame);
    }
  }

  lemma SweptBalanced(s: Shadow, h': Heap, frees: seq<Item>, frame: nat)
    requires Balanced(s) && Sweeps(s.heap, h', frees, frame)
    ensures Balanced(s.(heap := h', items := s.items + frees))
  {
    SweepBalanced(s.heap, h', frees, frame);
    QueuedFreesConcat(s.items, frees);
  }

  lemma ApplyBalanced(s: Shadow, a: Action)
    requires Balanced(s) && Enabled(s, a)
    ensures Balanced(Apply(s, a))
  {
    match a
    case Enqueue(item) => QueuedFreesConcat(s.items, [item]);
    case DoWork => WorkBalanced(s);
    case Collect(p) =>
      PassSweeps(s.heap, p);
      SweptBalanced(s, p.after, p.frees, p.frame);
  }

  lemma {:induction false} BalancedAlways(s: Shadow, actions: seq<Action>)
    requires Balanced(s) && Runs(s, actions)
    ensures Balanced(After(s, actions))
    decreases |actions|
  {
    if actions != [] {
      ApplyBalanced(s, actions[0]);
      BalancedAlways(Apply(s, actions[0]), actions[1..]);
    }
  }

  /** Over any interleaving, allocated minus freed bytes are those tracked plus those queued to be freed. */
  lemma BytesConserved(actions: seq<Action>)
    requires Runs(Empty(), actions)
    ensures Balanced(After(Empty(), actions))
  {
    assert Balanced(Empty());
    BalancedAlways(Empty(), actions);
  }

  // ---- Closure of the parent graph

  lemma {:induction false} ParentsTrackedFrom(s: Shadow, actions: seq<Action>)
    requires ParentsTracked(s.heap) && Runs(s, actions)
    ensures ParentsTracked(After(s, actions).heap)
    decreases |actions|
  {
    if actions != [] {
      match actions[0] {
        case Enqueue(_) =>
        case DoWork => WorkKeepsParents(s);
        case Collect(p) => PassTracksParents(s.heap, p);
      }
      ParentsTrackedFrom(Apply(s, actions[0]), actions[1..]);
    }
  }

  /** In every reachable state every recorded parent is tracked. */
  lemma ParentsAlwaysTracked(actions: seq<Action>)
    requires Runs(Empty(), actions)
    ensures ParentsTracked(After(Empty(), actions).heap)
  {
    ParentsTrackedFrom(Empty(), actions);
  }

  lemma WorkKeepsParents(s: Shadow)
    requires ParentsTracked(s.heap) && s.items != []
    ensures ParentsTracked(Work(s).heap)
  {
    var h := Work(s).heap;
    forall q | q in h ensures forall p | p in h[q].parents :: p in h {
      if q in s.heap {
        assert h[q].parents == s.heap[q].parents;
      }
    }
  }

  // ---- The reported event stream

  function Sizes(h: Heap): map<Addr, nat> {
    map x | x in h :: h[x].size
  }

  /** The objects a client believes live after the events, or None once the events make no sense. */
  function Replay(events: seq<Event>): Option<map<Addr, nat>>
    decreases |events|
  {
    if events == [] then Some(map[])
    else
      var m := Replay(events[..|events| - 1]);
      if m.None? then None else ReplayOne(m.value, events[|events| - 1])
  }

  function ReplayOne(m: map<Addr, nat>, e: Event): Option<map<Addr, nat>> {
    match e
    case Allocated(_, a, size) => if a in m then None else Some(m[a := size])
    case Freed(_, a, size) => if a in m && m[a] == size then Some(m - {a}) else None
  }

  lemma ReplayAppend(events: seq<Event>, e: Event)
    requires Replay(events).Some?
    ensures Replay(events + [e]) == ReplayOne(Replay(events).value, e)
  {
    assert (events + [e])[..|events|] == events;
  }

  /** The item is an allocation of a that the worker will track. */
  predicate Allocates(item: Item, a: Addr) {
    item.AllocItem? && !item.stopword && item.addr == a
  }

  predicate Agree(m: map<Addr, nat>, h: map<Addr, nat>, a: Addr) {
    (a in m <==> a in h) && (a in m ==> m[a] == h[a])
  }

  /**
    A client that believes m and a worker that tracks h stay in step while the queue is worked off: a free is of an
    object the client has, with its size; at an allocation the two agree on the address; in the end they agree.
   */
  ghost predicate InStep(m: map<Addr, nat>, items: seq<Item>, h: map<Addr, nat>)
    decreases |items|
  {
    if items == [] then m == h
    else match items[0]
      case FreeItem(_, a, size) => a in m && m[a] == size && InStep(m - {a}, items[1..], h)
      case AllocItem(_, a, size, stopword) =>
        if stopword then InStep(m, items[1..], h)
        else Agree(m, h, a) && InStep(m[a := size], items[1..], h[a := size])
  }

  ghost predicate StreamInv(s: Shadow) {
    Replay(s.events).Some? && InStep(Replay(s.events).value, s.items, Sizes(s.heap))
  }

  lemma {:induction false} EnqueueInStep(m: map<Addr, nat>, items: seq<Item>, h: map<Addr, nat>, item: Item)
    requires InStep(m, items, h) && item.AllocItem?
    ensures InStep(m, items + [item], h)
    decreases |items|
  {
    if items == [] {
      assert [item][1..] == [];
    } else {
      assert (items + [item])[1..] == items[1..] + [item];
      match items[0]
      case FreeItem(_, a, _) => EnqueueInStep(m - {a}, items[1..], h, item);
      case AllocItem(_, a, size, stopword) =>
        if stopword {
          EnqueueInStep(m, items[1..], h, item);
        } else {
          EnqueueInStep(m[a := size], items[1..], h[a := size], item);
        }
    }
  }

  predicate AllocQueued(items: seq<Item>, a: Addr) {
    exists i :: 0 <= i < |items| && Allocates(items[i], a)
  }

  lemma AllocQueuedTail(items: seq<Item>, a: Addr)
    requires items != []
    ensures AllocQueued(items, a) <==> Allocates(items[0], a) || AllocQueued(items[1..], a)
  {
    if AllocQueued(items[1..], a) {
      var i :| 0 <= i < |items[1..]| && Allocates(items[1..][i], a);
      assert Allocates(items[i + 1], a);
    }
    if AllocQueued(items, a) {
      var i :| 0 <= i < |items| && Allocates(items[i], a);
      assert i > 0 ==> Allocates(items[1..][i - 1], a);
    }
  }

  /** Dropping an object whose address has no allocation queued keeps client and worker in step. */
  lemma {:induction false} DropInStep(m: map<Addr, nat>, items: seq<Item>, h: map<Addr, nat>, free: Item)
    requires InStep(m, items, h) && free.FreeItem? && free.addr in h && free.size == h[free.addr]
    requires !AllocQueued(items, free.addr)
    ensures InStep(m, items + [free], h - {free.addr})
    decreases |items|
  {
    if items == [] {
      assert [free][1..] == [];
    } else {
      assert (items + [free])[1..] == items[1..] + [free];
      AllocQueuedTail(items, free.addr);
      match items[0]
      case FreeItem(_, a, _) => DropInStep(m - {a}, items[1..], h, free);
      case AllocItem(_, a, size, stopword) =>
        if stopword {
          DropInStep(m, items[1..], h, free);
        } else {
          assert h[a := size] - {free.addr} == (h - {free.addr})[a := size];
          DropInStep(m[a := size], items[1..], h[a := size], free);
        }
    }
  }

  /** No dropped object's address has an allocation queued: what the wait in `do_gc_sync` is for. */
  ghost predicate SafeSweep(items: seq<Item>, frees: seq<Item>) {
    forall i | 0 <= i < |frees| :: !AllocQueued(items, frees[i].addr)
  }

  lemma {:induction false} SweepInStep(
      m: map<Addr, nat>, items: seq<Item>, h: Heap, h': Heap, frees: seq<Item>, frame: nat)
    requires InStep(m, items, Sizes(h)) && Sweeps(h, h', frees, frame) && SafeSweep(items, frees)
    ensures InStep(m, items + frees, Sizes(h'))
    decreases |frees|
  {
    if frees == [] {
      assert items + frees == items && Sizes(h) == Sizes(h');
    } else {
      var free := frees[0];
      DropInStep(m, items, Sizes(h), free);
      assert Sizes(h) - {free.addr} == Sizes(h - {free.addr});
      forall i | 0 <= i < |frees[1..]| ensures !AllocQueued(items + [free], frees[1..][i].addr) {
        assert frees[1..][i] == frees[i + 1];
        assert !AllocQueued(items, frees[i + 1].addr);
      }
      SweepInStep(m, items + [free], h - {free.addr}, h', frees[1..], frame);
      assert items + [free] + frees[1..] == items + frees;
    }
  }

  lemma ReallocStream(events: seq<Event>, frame: nat, a: Addr, before: nat, size: nat)
    requires Replay(events).Some? && a in Replay(events).value && Replay(events).value[a] == before
    ensures Replay(events + [Freed(frame, a, before), Allocated(frame, a, size)]) ==
            Some(Replay(events).value[a := size])
  {
    var m := Replay(events).value;
    var free, alloc := Freed(frame, a, before), Allocated(frame, a, size);
    ReplayAppend(events, free);
    ReplayAppend(events + [free], alloc);
    assert events + [free] + [alloc] == events + [free, alloc];
    assert (m - {a})[a := size] == m[a := size];
  }

  lemma WorkStream(s: Shadow)
    requires StreamInv(s) && s.items != []
    ensures StreamInv(Work(s))
  {
    match s.items[0]
    case FreeItem(frame, a, size) => ReplayAppend(s.events, Freed(frame, a, size));
    case AllocItem(frame, a, size, stopword) =>
      if !stopword {
        WorkAllocStream(s, frame, a, size);
      }
  }

  lemma WorkAllocStream(s: Shadow, frame: nat, a: Addr, size: nat)
    requires StreamInv(s) && s.items != [] && s.items[0] == AllocItem(frame, a, size, false)
    ensures StreamInv(Work(s))
  {
    assert Sizes(Work(s).heap) == Sizes(s.heap)[a := size];
    if a !in s.heap {
      ReplayAppend(s.events, Allocated(frame, a, size));
    } else {
      ReallocStream(s.events, frame, a, s.heap[a].size, size);
    }
  }

  ghost predicate SafeStep(s: Shadow, a: Action) {
    a.Collect? ==> SafeSweep(s.items, a.pass.frees)
  }

  lemma ApplyStream(s: Shadow, a: Action)
    requires StreamInv(s) && Enabled(s, a) && SafeStep(s, a)
    ensures StreamInv(Apply(s, a))
  {
    var m := Replay(s.events).value;
    match a
    case Enqueue(item) => EnqueueInStep(m, s.items, Sizes(s.heap), item);
    case DoWork => WorkStream(s);
    case Collect(p) =>
      PassSweeps(s.heap, p);
      SweepInStep(m, s.items, s.heap, p.after, p.frees, p.frame);
  }

  /** Every sweep of the run is safe. */
  ghost predicate SafeSweeps(s: Shadow, actions: seq<Action>)
    requires Runs(s, actions)
    decreases |actions|
  {
    actions != [] ==> SafeStep(s, actions[0]) && SafeSweeps(Apply(s, actions[0]), actions[1..])
  }

  lemma {:induction false} StreamAlways(s: Shadow, actions: seq<Action>)
    requires StreamInv(s) && Runs(s, actions) && SafeSweeps(s, actions)
    ensures StreamInv(After(s, actions))
    decreases |actions|
  {
    if actions != [] {
      ApplyStream(s, actions[0]);
      StreamAlways(Apply(s, actions[0]), actions[1..]);
    }
  }

  /** Sweeps that start with no allocation queued are safe. */
  lemma WaitingIsSafe(items: seq<Item>, frees: seq<Item>)
    requires forall i | 0 <= i < |items| :: items[i].FreeItem?
    ensures SafeSweep(items, frees)
  {
  }

  // ---- An unsafe sweep breaks the stream

  /**
    The stream is broken, or bound to break at the k-th queued item: it allocates an address that the client believes
    live and the worker does not track, and no earlier item is about that address.
   */
  ghost predicate Doomed(s: Shadow, k: nat, a: Addr) {
    Replay(s.events).Some? ==>
      && k < |s.items| && Allocates(s.items[k], a)
      && a !in s.heap && a in Replay(s.events).value
      && forall i | 0 <= i < k :: !Allocates(s.items[i], a) && !(s.items[i].FreeItem? && s.items[i].addr == a)
  }

  /** In step, the client has an object whose first queued item is an allocation, and no free of it comes before. */
  lemma {:induction false} BeforeFirstAlloc(
      m: map<Addr, nat>, items: seq<Item>, h: map<Addr, nat>, a: Addr, k: nat)
    requires InStep(m, items, h) && a in h && k < |items| && Allocates(items[k], a)
    requires forall i | 0 <= i < k :: !Allocates(items[i], a)
    ensures a in m && forall i | 0 <= i < k :: !(items[i].FreeItem? && items[i].addr == a)
    decreases |items|
  {
    if k > 0 {
      var rest := items[1..];
      assert rest[k - 1] == items[k];
      assert forall i | 0 <= i < k - 1 :: rest[i] == items[i + 1];
      match items[0]
      case FreeItem(_, b, _) => BeforeFirstAlloc(m - {b}, rest, h, a, k - 1);
      case AllocItem(_, b, size, stopword) =>
        if stopword {
          BeforeFirstAlloc(m, rest, h, a, k - 1);
        } else {
          assert !Allocates(items[0], a);
          BeforeFirstAlloc(m[b := size], rest, h[b := size], a, k - 1);
        }
      forall i | 0 <= i < k ensures !(items[i].FreeItem? && items[i].addr == a) {
        assert i > 0 ==> items[i] == rest[i - 1];
      }
    }
  }

  lemma {:induction false} FirstAlloc(items: seq<Item>, a: Addr) returns (k: nat)
    requires AllocQueued(items, a)
    ensures k < |items| && Allocates(items[k], a) && forall i | 0 <= i < k :: !Allocates(items[i], a)
    decreases |items|
  {
    if Allocates(items[0], a) {
      k := 0;
    } else {
      AllocQueuedTail(items, a);
      var j := FirstAlloc(items[1..], a);
      k := j + 1;
      forall i | 0 <= i < k ensures !Allocates(items[i], a) {
        assert i > 0 ==> items[i] == items[1..][i - 1];
      }
    }
  }

  /** A sweep drops what it says it drops. */
  lemma {:induction false} SweptAway(h: Heap, h': Heap, frees: seq<Item>, frame: nat, i: nat)
    requires Sweeps(h, h', frees, frame) && i < |frees|
    ensures frees[i].addr in h && frees[i].addr !in h'
    decreases |frees|
  {
    SweptKeys(h - {frees[0].addr}, h', frees[1..], frame);
    if i > 0 {
      SweptAway(h - {frees[0].addr}, h', frees[1..], frame, i - 1);
    }
  }

  lemma {:induction false} SweptKeys(h: Heap, h': Heap, frees: seq<Item>, frame: nat)
    requires Sweeps(h, h', frees, frame)
    ensures h'.Keys <= h.Keys
    decreases |frees|
  {
    if frees != [] {
      SweptKeys(h - {frees[0].addr}, h', frees[1..], frame);
    }
  }

  lemma UnsafeDooms(s: Shadow, p: Pass) returns (k: nat, a: Addr)
    requires StreamInv(s) && Collects(s.heap, p) && !SafeSweep(s.items, p.frees)
    ensures Doomed(Apply(s, Collect(p)), k, a)
  {
    PassSweeps(s.heap, p);
    var i :| 0 <= i < |p.frees| && AllocQueued(s.items, p.frees[i].addr);
    a := p.frees[i].addr;
    SweptAway(s.heap, p.after, p.frees, p.frame, i);
    k := FirstAlloc(s.items, a);
    BeforeFirstAlloc(Replay(s.events).value, s.items, Sizes(s.heap), a, k);
  }

  lemma ReplayStaysBroken(events: seq<Event>, e: Event)
    requires Replay(events).None?
    ensures Replay(events + [e]).None?
  {
    assert (events + [e])[..|events|] == events;
  }

  /** A worker step brings the doomed item nearer or breaks the stream. */
  lemma WorkDoomed(s: Shadow, k: nat, a: Addr) returns (k': nat)
    requires Doomed(s, k, a) && s.items != []
    ensures Doomed(Work(s), k', a)
  {
    k' := if k > 0 then k - 1 else 0;
    var s' := Work(s);
    if Replay(s.events).None? {
      BrokenStays(s);
    } else {
      match s.items[0]
      case FreeItem(frame, b, size) =>
        ReplayAppend(s.events, Freed(frame, b, size));
      case AllocItem(frame, b, size, stopword) =>
        if !stopword {
          if b !in s.heap {
            ReplayAppend(s.events, Allocated(frame, b, size));
          } else {
            ReallocEither(s.events, frame, b, s.heap[b].size, size);
          }
        }
      if Replay(s'.events).Some? {
        assert k > 0;
        assert s'.items[k - 1] == s.items[k];
        assert forall i | 0 <= i < k - 1 :: s'.items[i] == s.items[i + 1];
      }
    }
  }

  lemma BrokenStays(s: Shadow)
    requires Replay(s.events).None? && s.items != []
    ensures Replay(Work(s).events).None?
  {
    match s.items[0]
    case FreeItem(frame, b, size) => ReplayStaysBroken(s.events, Freed(frame, b, size));
    case AllocItem(frame, b, size, stopword) =>
      ReplayStaysBroken(s.events, Allocated(frame, b, size));
      if b in s.heap {
        var free := Freed(frame, b, s.heap[b].size);
        ReplayStaysBroken(s.events, free);
        ReplayStaysBroken(s.events + [free], Allocated(frame, b, size));
        assert s.events + [free] + [Allocated(frame, b, size)] == s.events + [free, Allocated(frame, b, size)];
      }
  }

  /** A reported reallocation of b breaks the stream or replaces the client's object at b. */
  lemma ReallocEither(events: seq<Event>, frame: nat, b: Addr, before: nat, size: nat)
    requires Replay(events).Some?
    ensures var r := Replay(events + [Freed(frame, b, before), Allocated(frame, b, size)]);
            r.None? || r.value == Replay(events).value[b := size]
  {
    var m := Replay(events).value;
    if b in m && m[b] == before {
      ReallocStream(events, frame, b, before, size);
    } else {
      var free, alloc := Freed(frame, b, before), Allocated(frame, b, size);
      ReplayAppend(events, free);
      ReplayStaysBroken(events + [free], alloc);
      assert events + [free] + [alloc] == events + [free, alloc];
    }
  }

  lemma ApplyDoomed(s: Shadow, act: Action, k: nat, a: Addr) returns (k': nat)
    requires Doomed(s, k, a) && Enabled(s, act)
    ensures Doomed(Apply(s, act), k', a)
  {
    k' := k;
    match act
    case Enqueue(_) =>
    case DoWork => k' := WorkDoomed(s, k, a);
    case Collect(p) =>
      PassSweeps(s.heap, p);
      SweptKeys(s.heap, p.after, p.frees, p.frame);
  }

  lemma {:induction false} DoomedForever(s: Shadow, actions: seq<Action>, k: nat, a: Addr) returns (k': nat)
    requires Doomed(s, k, a) && Runs(s, actions)
    ensures Doomed(After(s, actions), k', a)
    decreases |actions|
  {
    k' := k;
    if actions != [] {
      k' := ApplyDoomed(s, actions[0], k, a);
      k' := DoomedForever(Apply(s, actions[0]), actions[1..], k', a);
    }
  }

  lemma {:induction false} UnsafeBreaks(s: Shadow, actions: seq<Action>)
    requires StreamInv(s) && Runs(s, actions) && !SafeSweeps(s, actions) && After(s, actions).items == []
    ensures Replay(After(s, actions).events).None?
    decreases |actions|
  {
    if SafeStep(s, actions[0]) {
      ApplyStream(s, actions[0]);
      UnsafeBreaks(Apply(s, actions[0]), actions[1..]);
    } else {
      var k, a := UnsafeDooms(s, actions[0].pass);
      var _ := DoomedForever(Apply(s, actions[0]), actions[1..], k, a);
    }
  }

  // ---- What a well-formed stream looks like per address

  /** The events about address a, in order. */
  function Projection(events: seq<Event>, a: Addr): seq<Event>
    decreases |events|
  {
    if events == [] then []
    else
      var rest := Projection(events[..|events| - 1], a);
      if events[|events| - 1].addr == a then rest + [events[|events| - 1]] else rest
  }

  /** Alloc, free, alloc, free, ...; each free carries the size of the alloc before it. */
  predicate Alternates(es: seq<Event>) {
    forall i | 0 <= i < |es| :: (es[i].Allocated? <==> i % 2 == 0) && (i % 2 == 1 ==> es[i].size == es[i - 1].size)
  }

  lemma {:induction false} ReplayProjection(events: seq<Event>, a: Addr)
    requires Replay(events).Some?
    ensures var m, es := Replay(events).value, Projection(events, a);
            && Alternates(es)
            && (a in m <==> |es| % 2 == 1)
            && (a in m ==> es[|es| - 1].size == m[a])
    decreases |events|
  {
    if events != [] {
      ReplayProjection(events[..|events| - 1], a);
    }
  }

  lemma AlternatesPrefix(es: seq<Event>, e: Event)
    requires Alternates(es + [e])
    ensures Alternates(es)
  {
    forall i | 0 <= i < |es|
      ensures (es[i].Allocated? <==> i % 2 == 0) && (i % 2 == 1 ==> es[i].size == es[i - 1].size)
    {
      assert (es + [e])[i] == es[i];
      if i % 2 == 1 {
        assert (es + [e])[i - 1] == es[i - 1];
      }
    }
  }

  ghost predicate AllAlternate(events: seq<Event>) {
    forall a: Addr :: Alternates(Projection(events, a))
  }

  lemma {:induction false} AlternatesReplays(events: seq<Event>)
    requires AllAlternate(events)
    ensures Replay(events).Some?
    decreases |events|
  {
    if events != [] {
      var init, e := events[..|events| - 1], events[|events| - 1];
      forall a: Addr ensures Alternates(Projection(init, a)) {
        assert Alternates(Projection(events, a));
        if a == e.addr {
          AlternatesPrefix(Projection(init, a), e);
        }
      }
      AlternatesReplays(init);
      ReplayProjection(init, e.addr);
      var es := Projection(init, e.addr);
      assert Alternates(Projection(events, e.addr)) && Projection(events, e.addr) == es + [e];
      assert (es + [e])[|es|] == e;
      assert |es| > 0 ==> (es + [e])[|es| - 1] == es[|es| - 1];
    }
  }

  /** A stream replays without contradiction exactly when every address alternates. */
  lemma ReplayIffAlternates(events: seq<Event>)
    ensures Replay(events).Some? <==> AllAlternate(events)
  {
    if Replay(events).Some? {
      forall a: Addr ensures Alternates(Projection(events, a)) {
        ReplayProjection(events, a);
      }
    }
    if AllAlternate(events) {
      AlternatesReplays(events);
    }
  }

  /** A queued free of address a. */
  predicate FreeQueued(items: seq<Item>, a: Addr, size: nat) {
    exists i :: 0 <= i < |items| && items[i].FreeItem? && items[i].addr == a && items[i].size == size
  }

  /** In step, the client has what the worker tracks and what is queued to be freed. */
  lemma {:induction false} InStepMeans(
      m: map<Addr, nat>, items: seq<Item>, h: map<Addr, nat>, a: Addr, size: nat)
    requires InStep(m, items, h)
    ensures (a in m && m[a] == size) <==> ((a in h && h[a] == size) || FreeQueued(items, a, size))
    ensures FreeQueued(items, a, size) ==> a !in h
    decreases |items|
  {
    if items != [] {
      FreeQueuedTail(items, a, size);
      match items[0]
      case FreeItem(_, b, bytes) =>
        InStepMeans(m - {b}, items[1..], h, a, size);
        if a == b && a in h {
          InStepMeans(m - {b}, items[1..], h, a, h[a]);
        }
      case AllocItem(_, b, bytes, stopword) =>
        if stopword {
          InStepMeans(m, items[1..], h, a, size);
        } else {
          InStepMeans(m[b := bytes], items[1..], h[b := bytes], a, size);
        }
    }
  }

  lemma FreeQueuedTail(items: seq<Item>, a: Addr, size: nat)
    requires items != []
    ensures FreeQueued(items, a, size)
       <==> (items[0].FreeItem? && items[0].addr == a && items[0].size == size) || FreeQueued(items[1..], a, size)
  {
    var rest := items[1..];
    if FreeQueued(rest, a, size) {
      var i :| 0 <= i < |rest| && rest[i].FreeItem? && rest[i].addr == a && rest[i].size == size;
      assert items[i + 1] == rest[i];
    }
    if FreeQueued(items, a, size) {
      var i :| 0 <= i < |items| && items[i].FreeItem? && items[i].addr == a && items[i].size == size;
      assert i > 0 ==> rest[i - 1] == items[i];
    }
  }

  /**
    In every run whose sweeps are safe: for each address the reported events alternate and each free carries the size
    of its alloc, and a client that replays them has exactly the tracked objects plus those whose free is still queued.
   */
  lemma ReportedStream(actions: seq<Action>, a: Addr, size: nat)
    requires Runs(Empty(), actions) && SafeSweeps(Empty(), actions)
    ensures var s := After(Empty(), actions);
            && Alternates(Projection(s.events, a))
            && Replay(s.events).Some?
            && var m := Replay(s.events).value;
               ((a in m && m[a] == size) <==>
                ((a in s.heap && s.heap[a].size == size) || FreeQueued(s.items, a, size)))
               && (FreeQueued(s.items, a, size) ==> a !in s.heap)
  {
    assert StreamInv(Empty());
    StreamAlways(Empty(), actions);
    var s := After(Empty(), actions);
    ReplayProjection(s.events, a);
    InStepMeans(Replay(s.events).value, s.items, Sizes(s.heap), a, size);
  }

  /**
    The exact condition: a run that has worked off its queue reported a well-formed stream iff no sweep dropped an
    address with an allocation queued.
   */
  lemma StreamIffSafe(actions: seq<Action>)
    requires Runs(Empty(), actions) && After(Empty(), actions).items == []
    ensures AllAlternate(After(Empty(), actions).events) <==> SafeSweeps(Empty(), actions)
  {
    assert StreamInv(Empty());
    ReplayIffAlternates(After(Empty(), actions).events);
    if SafeSweeps(Empty(), actions) {
      StreamAlways(Empty(), actions);
    } else {
      UnsafeBreaks(Empty(), actions);
    }
  }

  // ---- A run that breaks

  /** A pass that finds no roots drops a single unmarked object. */
  function DropAll(a: Addr, size: nat, frame: nat): Pass {
    var h: Heap := map[a := Info(size, false, false, false, [])];
    Pass([], _ => 0, frame, false, h, [FreeItem(frame, a, size)], map[])
  }

  lemma DropAllCollects(a: Addr, size: nat, frame: nat)
    ensures Collects(map[a := Info(size, false, false, false, [])], DropAll(a, size, frame))
  {
    var p := DropAll(a, size, frame);
    assert p.frees[1..] == [] && p.marked - {a} == map[];
  }

  lemma Prepend(s: Shadow, a: Action, rest: seq<Action>)
    requires Enabled(s, a) && Runs(Apply(s, a), rest)
    ensures Runs(s, [a] + rest) && After(s, [a] + rest) == After(Apply(s, a), rest)
    ensures SafeSweeps(s, [a] + rest) <==> SafeStep(s, a) && SafeSweeps(Apply(s, a), rest)
  {
    assert ([a] + rest)[1..] == rest;
  }

  /** The object at 8 is allocated anew in the queue while a sweep drops it. */
  lemma UnsafeRun() returns (actions: seq<Action>)
    ensures Runs(Empty(), actions) && After(Empty(), actions).items == [] && !SafeSweeps(Empty(), actions)
    ensures !AllAlternate(After(Empty(), actions).events)
  {
    var a1, a2, f := AllocItem(0, 8, 4, false), AllocItem(1, 8, 6, false), FreeItem(2, 8, 4);
    var p := DropAll(8, 4, 2);
    DropAllCollects(8, 4, 2);
    var s1 := Apply(Empty(), Enqueue(a1));
    assert s1.items == [a1];
    var s2 := Apply(s1, DoWork);
    var s3 := Apply(s2, Enqueue(a2));
    assert s3.items == [a2] && s3.heap == map[8 := Info(4, false, false, false, [])];
    var s4 := Apply(s3, Collect(p));
    assert s4.items == [a2, f];
    var s5 := Apply(s4, DoWork);
    assert s5.items == [f];
    Prepend(s5, DoWork, []);
    Prepend(s4, DoWork, [DoWork] + []);
    assert AllocQueued(s3.items, p.frees[0].addr);
    Prepend(s3, Collect(p), [DoWork] + ([DoWork] + []));
    actions := [Collect(p)] + ([DoWork] + ([DoWork] + []));
    Prepend(s2, Enqueue(a2), actions);
    actions := [Enqueue(a2)] + actions;
    Prepend(s1, DoWork, actions);
    actions := [DoWork] + actions;
    Prepend(Empty(), Enqueue(a1), actions);
    actions := [Enqueue(a1)] + actions;
    StreamIffSafe(actions);
  }
}
