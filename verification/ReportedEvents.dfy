/**
  Which queued item each reported event comes from (server/src/worker_thread.cpp, `do_work`): what the worker reports,
  counts and records over a whole run, said in terms of what the application and the passes queued.
 */
module ReportedEvents {
  import opened HeapGraph
  import opened ShadowRuns
  import opened Words

  /** What a step queues. */
  function NewItems(a: Action): seq<Item> {
    match a
    case Enqueue(item) => [item]
    case DoWork => []
    case Collect(p) => p.frees
  }

  /** Everything a run queues, in order. */
  function Queued(actions: seq<Action>): seq<Item> {
    if actions == [] then [] else NewItems(actions[0]) + Queued(actions[1..])
  }

  /**
    What the worker may report of one item: a free with the item's frame, address and size; nothing of a stopword
    allocation; otherwise an allocation with the item's frame, address and size, preceded in the same frame by a free of
    the same address if its free was missed.
   */
  ghost predicate Caused(item: Item, es: seq<Event>) {
    match item
    case FreeItem(frame, addr, size) => es == [Freed(frame, addr, size)]
    case AllocItem(frame, addr, size, stopword) =>
      if stopword then es == []
      else
        || es == [Allocated(frame, addr, size)]
        || (exists before :: es == [Freed(frame, addr, before), Allocated(frame, addr, size)])
  }

  ghost function Flatten(groups: seq<seq<Event>>): seq<Event> {
    if groups == [] then [] else groups[0] + Flatten(groups[1..])
  }

  /** The first items are worked off and each has caused its group of events. */
  ghost predicate Reports(items: seq<Item>, groups: seq<seq<Event>>) {
    |groups| <= |items| && forall k | 0 <= k < |groups| :: Caused(items[k], groups[k])
  }

  /** What the head of the queue makes the worker report. */
  lemma WorkCauses(s: Shadow) returns (es: seq<Event>)
    requires s.items != []
    ensures Caused(s.items[0], es) && Work(s).events == s.events + es
  {
    match s.items[0]
    case FreeItem(frame, addr, size) => es := [Freed(frame, addr, size)];
    case AllocItem(frame, addr, size, stopword) =>
      if stopword {
        es := [];
      } else if addr !in s.heap {
        es := [Allocated(frame, addr, size)];
      } else {
        es := [Freed(frame, addr, s.heap[addr].size), Allocated(frame, addr, size)];
      }
  }

  /** From a queue of `items`, with `later` ones to come, the run has caused `groups` and left the rest queued. */
  ghost predicate Explains(items: seq<Item>, events: seq<Event>, end: Shadow, groups: seq<seq<Event>>) {
    Reports(items, groups) && end.events == events + Flatten(groups) && end.items == items[|groups|..]
  }

  lemma {:induction false} ReportsFrom(s: Shadow, actions: seq<Action>) returns (groups: seq<seq<Event>>)
    requires Runs(s, actions)
    ensures Explains(s.items + Queued(actions), s.events, After(s, actions), groups)
    decreases |actions|
  {
    if actions == [] {
      groups := [];
      assert s.events + [] == s.events && s.items + [] == s.items;
    } else {
      groups := ReportsFrom(Apply(s, actions[0]), actions[1..]);
      groups := StepReports(s, actions[0], Queued(actions[1..]), After(s, actions), groups);
    }
  }

  lemma StepReports(s: Shadow, a: Action, later: seq<Item>, end: Shadow, groups: seq<seq<Event>>)
      returns (groups': seq<seq<Event>>)
    requires a.DoWork? ==> s.items != []
    requires Explains(Apply(s, a).items + later, Apply(s, a).events, end, groups)
    ensures Explains(s.items + (NewItems(a) + later), s.events, end, groups')
  {
    groups' := groups;
    if a.DoWork? {
      var es := WorkCauses(s);
      groups' := [es] + groups;
      assert Work(s).items == s.items[1..];
      FirstGroup(s.items, later, s.events, es, groups, end);
      assert NewItems(a) + later == later;
    } else {
      assert s.items + NewItems(a) + later == s.items + (NewItems(a) + later);
    }
  }

  lemma FirstGroup(
      items: seq<Item>, later: seq<Item>, events: seq<Event>, es: seq<Event>, groups: seq<seq<Event>>, end: Shadow)
    requires items != [] && Caused(items[0], es) && Explains(items[1..] + later, events + es, end, groups)
    ensures Explains(items + later, events, end, [es] + groups)
  {
    assert ([es] + groups)[1..] == groups;
    assert events + es + Flatten(groups) == events + (es + Flatten(groups));
    assert items + later == [items[0]] + (items[1..] + later);
    FirstReport(items[0], items[1..] + later, es, groups);
  }

  lemma FirstReport(item: Item, items: seq<Item>, es: seq<Event>, groups: seq<seq<Event>>)
    requires Caused(item, es) && Reports(items, groups)
    ensures Reports([item] + items, [es] + groups)
    ensures ([item] + items)[|groups| + 1..] == items[|groups|..]
  {
  }

  /** The queue is first-in first-out, and the reported events are what the items worked off have caused, in order. */
  lemma EventsOfRun(actions: seq<Action>) returns (groups: seq<seq<Event>>)
    requires Runs(Empty(), actions)
    ensures Reports(Queued(actions), groups) && After(Empty(), actions).events == Flatten(groups)
    ensures After(Empty(), actions).items == Queued(actions)[|groups|..]
  {
    groups := ReportsFrom(Empty(), actions);
    assert [] + Queued(actions) == Queued(actions);
    assert [] + Flatten(groups) == Flatten(groups);
  }

  // ---- Allocations

  function Allocations(events: seq<Event>): seq<Event> {
    if events == [] then []
    else (if events[0].Allocated? then [events[0]] else []) + Allocations(events[1..])
  }

  /** What the items say should be reported as allocated. */
  function Announced(items: seq<Item>): seq<Event> {
    if items == [] then []
    else
      match items[0]
      case FreeItem(_, _, _) => Announced(items[1..])
      case AllocItem(frame, addr, size, stopword) =>
        (if stopword then [] else [Allocated(frame, addr, size)]) + Announced(items[1..])
  }

  lemma {:induction false} AllocationsConcat(a: seq<Event>, b: seq<Event>)
    ensures Allocations(a + b) == Allocations(a) + Allocations(b)
  {
    if a == [] {
      assert a + b == b;
    } else {
      assert (a + b)[1..] == a[1..] + b;
      AllocationsConcat(a[1..], b);
      Associative(if a[0].Allocated? then [a[0]] else [], Allocations(a[1..]), Allocations(b));
    }
  }

  lemma Associative(a: seq<Event>, b: seq<Event>, c: seq<Event>)
    ensures a + b + c == a + (b + c)
  {
  }

  lemma CausedAllocations(item: Item, es: seq<Event>)
    requires Caused(item, es)
    ensures Allocations(es) == Announced([item])
  {
    assert [item][1..] == [];
    if |es| == 2 {
      assert es[1..][1..] == [];
    } else if |es| == 1 {
      assert es[1..] == [];
    }
  }

  lemma AnnouncedFirst(items: seq<Item>)
    requires items != []
    ensures Announced(items) == Announced([items[0]]) + Announced(items[1..])
  {
    assert [items[0]][1..] == [];
  }

  lemma ReportsRest(items: seq<Item>, groups: seq<seq<Event>>)
    requires items != [] && groups != [] && Reports(items, groups)
    ensures Caused(items[0], groups[0]) && Reports(items[1..], groups[1..])
  {
    forall k | 0 <= k < |groups[1..]| ensures Caused(items[1..][k], groups[1..][k]) {
      assert Caused(items[k + 1], groups[k + 1]);
    }
  }

  lemma {:induction false} GroupsAllocations(items: seq<Item>, groups: seq<seq<Event>>)
    requires |items| == |groups| && Reports(items, groups)
    ensures Allocations(Flatten(groups)) == Announced(items)
    decreases |items|
  {
    if items != [] {
      ReportsRest(items, groups);
      CausedAllocations(items[0], groups[0]);
      AllocationsConcat(groups[0], Flatten(groups[1..]));
      AnnouncedFirst(items);
      GroupsAllocations(items[1..], groups[1..]);
    }
  }

  /** The reported allocations are exactly the worked-off tracked allocations, in order and with frame and size. */
  lemma AllocationsReported(actions: seq<Action>) returns (done: nat)
    requires Runs(Empty(), actions)
    ensures done <= |Queued(actions)| && After(Empty(), actions).items == Queued(actions)[done..]
    ensures Allocations(After(Empty(), actions).events) == Announced(Queued(actions)[..done])
  {
    var groups := EventsOfRun(actions);
    done := |groups|;
    forall k | 0 <= k < done ensures Caused(Queued(actions)[..done][k], groups[k]) {
      assert Caused(Queued(actions)[k], groups[k]);
    }
    GroupsAllocations(Queued(actions)[..done], groups);
  }

  // ---- Counters

  function AllocatedSizes(events: seq<Event>): nat {
    if events == [] then 0
    else AllocatedSizes(events[..|events| - 1]) + match events[|events| - 1] {
           case Allocated(_, _, size) => size
           case Freed(_, _, _) => 0
         }
  }

  function FreedSizes(events: seq<Event>): nat {
    if events == [] then 0
    else FreedSizes(events[..|events| - 1]) + match events[|events| - 1] {
           case Allocated(_, _, _) => 0
           case Freed(_, _, size) => size
         }
  }

  lemma OneMore(events: seq<Event>, e: Event)
    ensures AllocatedSizes(events + [e]) == AllocatedSizes(events) + if e.Allocated? then e.size else 0
    ensures FreedSizes(events + [e]) == FreedSizes(events) + if e.Freed? then e.size else 0
  {
    assert (events + [e])[..|events|] == events;
  }

  /** The counters a and f are the sums over the events. */
  ghost predicate Counts(events: seq<Event>, a: Word64, f: Word64) {
    a == Wrap(AllocatedSizes(events)) && f == Wrap(FreedSizes(events))
  }

  lemma CountAlloc(events: seq<Event>, frame: nat, addr: Addr, size: nat, a: Word64, f: Word64)
    requires Counts(events, a, f)
    ensures Counts(events + [Allocated(frame, addr, size)], Wrap(a + size), f)
  {
    OneMore(events, Allocated(frame, addr, size));
    WrapSum(AllocatedSizes(events), size);
  }

  lemma CountFree(events: seq<Event>, frame: nat, addr: Addr, size: nat, a: Word64, f: Word64)
    requires Counts(events, a, f)
    ensures Counts(events + [Freed(frame, addr, size)], a, Wrap(f + size))
  {
    OneMore(events, Freed(frame, addr, size));
    WrapSum(FreedSizes(events), size);
  }

  lemma WorkCounts(s: Shadow)
    requires Counts(s.events, s.allocatedBytes, s.freedBytes) && s.items != []
    ensures Counts(Work(s).events, Work(s).allocatedBytes, Work(s).freedBytes)
  {
    match s.items[0]
    case FreeItem(frame, addr, size) => CountFree(s.events, frame, addr, size, s.allocatedBytes, s.freedBytes);
    case AllocItem(frame, addr, size, stopword) =>
      if !stopword {
        if addr in s.heap {
          ReallocCounts(s, frame, addr, s.heap[addr].size, size);
        } else {
          CountAlloc(s.events, frame, addr, size, s.allocatedBytes, s.freedBytes);
        }
      }
  }

  lemma ReallocCounts(s: Shadow, frame: nat, addr: Addr, before: nat, size: nat)
    requires Counts(s.events, s.allocatedBytes, s.freedBytes)
    ensures Counts(
              s.events + [Freed(frame, addr, before), Allocated(frame, addr, size)],
              Wrap(s.allocatedBytes + size), Wrap(s.freedBytes + before))
  {
    CountFree(s.events, frame, addr, before, s.allocatedBytes, s.freedBytes);
    var events := s.events + [Freed(frame, addr, before)];
    CountAlloc(events, frame, addr, size, s.allocatedBytes, Wrap(s.freedBytes + before));
    assert events + [Allocated(frame, addr, size)]
        == s.events + [Freed(frame, addr, before), Allocated(frame, addr, size)];
  }

  lemma {:induction false} CountersFrom(s: Shadow, actions: seq<Action>)
    requires Counts(s.events, s.allocatedBytes, s.freedBytes) && Runs(s, actions)
    ensures var end := After(s, actions);
            Counts(end.events, end.allocatedBytes, end.freedBytes)
    decreases |actions|
  {
    if actions != [] {
      if actions[0].DoWork? {
        WorkCounts(s);
      }
      CountersFrom(Apply(s, actions[0]), actions[1..]);
    }
  }

  /** In every run the two counters are the sums of the sizes reported as allocated and as freed, modulo 2^64. */
  lemma CountersAreSums(actions: seq<Action>)
    requires Runs(Empty(), actions)
    ensures var s := After(Empty(), actions);
            && s.allocatedBytes == Wrap(AllocatedSizes(s.events))
            && s.freedBytes == Wrap(FreedSizes(s.events))
  {
    assert Counts([], 0, 0);
    CountersFrom(Empty(), actions);
  }

  // ---- Between passes

  /** What the last pass found out about an object; an object that came later is neither marked nor a root. */
  ghost predicate Remembered(before: Heap, after: Heap, x: Addr)
    requires x in after
  {
    if x in before then after[x] == before[x].(size := after[x].size)
    else after[x] == Info(after[x].size, false, false, false, [])
  }

  lemma {:induction false} MarksRemembered(s: Shadow, actions: seq<Action>, x: Addr)
    requires Runs(s, actions) && forall i | 0 <= i < |actions| :: !actions[i].Collect?
    ensures x in s.heap ==> x in After(s, actions).heap
    ensures x in After(s, actions).heap ==> Remembered(s.heap, After(s, actions).heap, x)
    decreases |actions|
  {
    if actions != [] {
      assert !actions[0].Collect?;
      forall i | 0 <= i < |actions[1..]| ensures !actions[1..][i].Collect? {
        assert actions[1..][i] == actions[i + 1];
      }
      MarksRemembered(Apply(s, actions[0]), actions[1..], x);
    }
  }
}
