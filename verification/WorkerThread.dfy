/**
  The worker of the profiler (server/src/worker_thread.cpp): it mirrors the managed heap from queued allocation
  events, runs its own mark-sweep over a memory snapshot, and answers reference queries.

  `m_gc_mutex` serialises worker steps and passes, so each public method here is one step of a run.
 */
module WorkerThread {
  import opened Ancestry
  import opened HeapGraph
  import opened Marking
  import opened ShadowRuns
  import opened Words
  import opened Wrappers

  class WorkerThread {
    var allocations: Heap
    var workItems: seq<Item>
    var roots: seq<Root>
    var stack: seq<Addr>
    var allocatedBytes: Word64
    var freedBytes: Word64
    var events: seq<Event>

    ghost function View(): Shadow
      reads this
    {
      Shadow(allocations, workItems, events, allocatedBytes, freedBytes)
    }

    constructor ()
      ensures View() == Empty() && roots == [] && stack == []
    {
      allocations, workItems, events := map[], [], [];
      roots, stack := [], [];
      allocatedBytes, freedBytes := 0, 0;
    }

    method RegisterRoot(start: Addr, size: nat)
      modifies this`roots
      ensures roots == old(roots) + [Root(start, size)]
    {
      roots := roots + [Root(start, size)];
    }

    method AddAllocation(frame: nat, addr: Addr, size: nat, stopword: bool)
      modifies this`workItems
      ensures View() == Apply(old(View()), Enqueue(AllocItem(frame, addr, size, stopword)))
    {
      workItems := workItems + [AllocItem(frame, addr, size, stopword)];
    }

    /** One turn of `do_work`. */
    method WorkStep() returns (worked: bool)
      modifies this`allocations, this`workItems, this`events, this`allocatedBytes, this`freedBytes
      ensures worked <==> old(workItems) != []
      ensures View() == if worked then Work(old(View())) else old(View())
    {
      if workItems == [] {
        return false;
      }
      worked := true;
      var item := workItems[0];
      workItems := workItems[1..];
      match item
      case FreeItem(frame, addr, size) =>
        events := events + [Freed(frame, addr, size)];
        freedBytes := Wrap(freedBytes + size);
      case AllocItem(frame, addr, size, stopword) =>
        if stopword {
          return;
        }
        if addr !in allocations {
          allocations := allocations[addr := Info(size, false, false, false, [])];
        } else {
          var info := allocations[addr];
          events := events + [Freed(frame, addr, info.size)];
          freedBytes := Wrap(freedBytes + info.size);
          allocations := allocations[addr := info.(size := size)];
        }
        events := events + [Allocated(frame, addr, size)];
        allocatedBytes := Wrap(allocatedBytes + size);
    }

    // ---- The marking pass

    /** A non-zero root word: if it is the address of an unmarked object, mark and push it. */
    method PushRootWord(ref: Addr)
      modifies this`allocations, this`stack
      ensures allocations == PushRoot(old(allocations), old(stack), ref).0
      ensures stack == PushRoot(old(allocations), old(stack), ref).1
    {
      if ref != 0 {
        if ref in allocations && !allocations[ref].marked {
          var info := allocations[ref].(root := true);
          info := info.(marked := true);
          allocations := allocations[ref := info];
          stack := stack + [ref];
        }
      }
    }

    /** All aligned words of one root area. */
    method PushArea(word: Memory, r: nat, ghost h0: Heap)
      requires r < |roots| && RootPhase(h0, roots, word, allocations, stack, r, 0)
      requires |stack| == |Marked(allocations)|
      modifies this`allocations, this`stack
      ensures RootPhase(h0, roots, word, allocations, stack, r + 1, 0)
      ensures |stack| == |Marked(allocations)|
    {
      var k := 0;
      while k < roots[r].size / WORD
        invariant k <= roots[r].size / WORD
        invariant RootPhase(h0, roots, word, allocations, stack, r, k)
        invariant |stack| == |Marked(allocations)|
      {
        var ref := word(roots[r].start + WORD * k);
        assert ref == RootWord(roots, word, r, k);
        RootPhaseStep(h0, roots, word, allocations, stack, r, k);
        PushRootCount(allocations, stack, ref);
        PushRootWord(ref);
        k := k + 1;
      }
      assert k == roots[r].size / WORD;
      RootPhaseNextArea(h0, roots, word, allocations, stack, r);
    }

    /** Phase 1: clear all marks and push every object hit by an aligned root word. */
    method PushRoots(word: Memory)
      modifies this`allocations, this`stack
      ensures RootPhase(old(allocations), roots, word, allocations, stack, |roots|, 0)
      ensures |stack| == |Marked(allocations)|
    {
      ghost var h0 := allocations;
      stack := [];
      allocations := Cleared(allocations);
      RootPhaseStart(h0, roots, word);
      assert Marked(allocations) == {};
      var r := 0;
      while r < |roots|
        invariant r <= |roots|
        invariant RootPhase(h0, roots, word, allocations, stack, r, 0)
        invariant |stack| == |Marked(allocations)|
      {
        PushArea(word, r, h0);
        r := r + 1;
      }
    }

    /** One word of the object at addr: record the parent, and mark and push the object it names if new. */
    method VisitWord(addr: Addr, candidate: Addr)
      modifies this`allocations, this`stack
      ensures allocations == Visit(old(allocations), old(stack), addr, candidate).0
      ensures stack == Visit(old(allocations), old(stack), addr, candidate).1
    {
      if candidate in allocations {
        var info := allocations[candidate].(parents := allocations[candidate].parents + [addr]);
        if !info.marked {
          info := info.(root := false);
          info := info.(marked := true);
          stack := stack + [candidate];
        }
        allocations := allocations[candidate := info];
      }
    }

    /** Byte offset p of the object being scanned. */
    method ScanOffset(word: Memory, addr: Addr, p: nat, ghost h0: Heap)
      requires MarkPhase(h0, roots, word, allocations, stack, Some(addr), p) && p < Offsets(h0[addr].size)
      modifies this`allocations, this`stack
      ensures MarkPhase(h0, roots, word, allocations, stack, Some(addr), p + 1)
      ensures |Marked(allocations)| - |stack| == old(|Marked(allocations)| - |stack|)
      ensures |Marked(allocations)| >= old(|Marked(allocations)|)
    {
      var candidate := word(addr + p);
      assert candidate == WordAt(word, addr, p);
      MarkPhaseVisit(h0, roots, word, allocations, stack, addr, p);
      VisitCounts(allocations, stack, addr, candidate);
      VisitWord(addr, candidate);
    }

    /** Scans one popped object at every byte offset at which a word fits. */
    method ScanObject(word: Memory, addr: Addr, ghost h0: Heap)
      requires MarkPhase(h0, roots, word, allocations, stack, Some(addr), 0)
      modifies this`allocations, this`stack
      ensures MarkPhase(h0, roots, word, allocations, stack, None, 0)
      ensures |Marked(allocations)| - |stack| == old(|Marked(allocations)| - |stack|)
      ensures |Marked(allocations)| >= old(|Marked(allocations)|)
    {
      var size := allocations[addr].size;
      assert size == h0[addr].size;
      var p := 0;
      while p + WORD <= size
        invariant p <= Offsets(size)
        invariant MarkPhase(h0, roots, word, allocations, stack, Some(addr), p)
        invariant |Marked(allocations)| - |stack| == old(|Marked(allocations)| - |stack|)
        invariant |Marked(allocations)| >= old(|Marked(allocations)|)
      {
        ScanOffset(word, addr, p, h0);
        p := p + 1;
      }
      assert p == Offsets(h0[addr].size);
      MarkPhaseFinish(h0, roots, word, allocations, stack, addr);
    }

    /** Pops the top of the stack and scans it. */
    method PopAndScan(word: Memory, ghost h0: Heap)
      requires stack != [] && MarkPhase(h0, roots, word, allocations, stack, None, 0)
      modifies this`allocations, this`stack
      ensures MarkPhase(h0, roots, word, allocations, stack, None, 0)
      ensures |Marked(allocations)| - |stack| == old(|Marked(allocations)| - |stack|) + 1
      ensures |Marked(allocations)| >= old(|Marked(allocations)|)
    {
      MarkPhasePop(h0, roots, word, allocations, stack);
      var addr := stack[|stack| - 1];
      stack := stack[..|stack| - 1];
      ScanObject(word, addr, h0);
    }

    /** Phases 1 and 2: marks from the roots, counting the objects scanned. */
    method Mark(word: Memory) returns (iterations: nat)
      modifies this`allocations, this`stack
      ensures MarkResult(old(allocations), roots, word, allocations)
      ensures iterations == |Marked(allocations)|
    {
      ghost var h0 := allocations;
      PushRoots(word);
      MarkPhaseStart(h0, roots, word, allocations, stack);
      iterations := 0;
      while stack != []
        invariant MarkPhase(h0, roots, word, allocations, stack, None, 0)
        invariant iterations + |stack| == |Marked(allocations)|
        decreases |h0.Keys| - |Marked(allocations)|, |stack|
      {
        iterations := iterations + 1;
        PopAndScan(word, h0);
        MarkedBounded(allocations);
      }
      assert stack == [];
      MarkPhaseEnd(h0, roots, word, allocations);
    }

    // ---- The sweep

    /** Drops every unmarked object and queues its free event; the map is walked in no particular order. */
    method Sweep(frame: nat) returns (ghost frees: seq<Item>)
      modifies this`allocations, this`workItems
      ensures workItems == old(workItems) + frees
      ensures Sweeps(old(allocations), allocations, frees, frame)
      ensures allocations == map x | x in old(allocations) && old(allocations)[x].marked :: old(allocations)[x]
    {
      ghost var h0 := allocations;
      frees := [];
      var todo := allocations.Keys;
      while todo != {}
        invariant todo <= allocations.Keys
        invariant forall x :: x in allocations <==> x in h0 && (x in todo || h0[x].marked)
        invariant forall x | x in allocations :: allocations[x] == h0[x]
        invariant workItems == old(workItems) + frees
        invariant Sweeps(h0, allocations, frees, frame)
        decreases |todo|
      {
        var x :| x in todo;
        todo := todo - {x};
        if !allocations[x].marked {
          SweepsAppend(h0, allocations, frees, frame, x);
          var item := FreeItem(frame, x, allocations[x].size);
          frees := frees + [item];
          workItems := workItems + [item];
          allocations := allocations - {x};
        }
      }
    }

    /**
      A whole pass. Exactly the reachable objects get marked, counted once each; a sweeping pass keeps exactly
      those and queues a free for every other one, and a parents-only pass keeps everything.
     */
    method CollectGarbage(word: Memory, frame: nat, onlyUpdateParents: bool)
      returns (iterations: nat, ghost marked: Heap, ghost frees: seq<Item>)
      modifies this`allocations, this`stack, this`workItems
      ensures MarkResult(old(allocations), roots, word, marked)
      ensures iterations == |Marked(marked)|
      ensures if onlyUpdateParents then allocations == marked && frees == []
              else allocations == map x | x in marked && marked[x].marked :: marked[x]
      ensures var pass := Pass(roots, word, frame, onlyUpdateParents, marked, frees, allocations);
              Enabled(old(View()), Collect(pass)) && View() == Apply(old(View()), Collect(pass))
    {
      iterations := Mark(word);
      marked := allocations;
      frees := [];
      if onlyUpdateParents {
        assert workItems == workItems + frees;
      } else {
        frees := Sweep(frame);
      }
    }

    // ---- Reference queries

    /** Reports the requested tracked objects and what recorded parents lead to from them, past no visited object. */
    method FindReferences(requests: seq<Addr>) returns (results: seq<Record>)
      requires ParentsTracked(allocations)
      modifies this`allocations
      ensures Answers(old(allocations), requests, results, allocations) && ParentsTracked(allocations)
      ensures |results| + |Visited(old(allocations))| <= |requests| + |Visited(allocations)|
    {
      ghost var h0 := allocations;
      results := [];
      var pending := requests;
      SearchStart(h0, requests);
      while pending != []
        invariant SearchInv(h0, requests, allocations, pending, results, None, 0)
        decreases |h0.Keys| - |Visited(allocations)|, |pending|
      {
        SearchPop(h0, requests, allocations, pending, results);
        var addr := pending[|pending| - 1];
        pending := pending[..|pending| - 1];
        if addr in allocations {
          results := results + [Describe(allocations, addr)];
          ReportedAppend(results[..|results| - 1], results[|results| - 1], addr);
          pending := PushParents(requests, addr, pending, results, h0);
          VisitedBounded(allocations);
        }
      }
      SearchEnd(h0, requests, allocations, results);
    }

    /** Pushes the parents that no earlier object has pushed. */
    method PushParents(
        ghost requests: seq<Addr>, addr: Addr, pending: seq<Addr>, ghost results: seq<Record>, ghost h0: Heap)
      returns (pending': seq<Addr>)
      requires addr in h0 && Reported(results, addr)
      requires SearchInv(h0, requests, allocations, pending, results, Some(addr), 0)
      modifies this`allocations
      ensures SearchInv(h0, requests, allocations, pending', results, None, 0)
      ensures |Visited(allocations)| - |pending'| == old(|Visited(allocations)|) - |pending|
      ensures |Visited(allocations)| >= old(|Visited(allocations)|)
    {
      pending' := pending;
      var parents := allocations[addr].parents;
      var j := 0;
      while j < |parents|
        invariant j <= |parents| && parents == h0[addr].parents
        invariant SearchInv(h0, requests, allocations, pending', results, Some(addr), j)
        invariant |Visited(allocations)| - |pending'| == old(|Visited(allocations)|) - |pending|
        invariant |Visited(allocations)| >= old(|Visited(allocations)|)
      {
        SearchParent(h0, requests, allocations, pending', results, addr, j);
        var parent := parents[j];
        if !allocations[parent].visited {
          VisitedGrows(allocations, parent);
          allocations := allocations[parent := allocations[parent].(visited := true)];
          pending' := pending' + [parent];
        }
        j := j + 1;
      }
      assert j == |h0[addr].parents|;
      SearchClose(h0, requests, allocations, pending', results, addr);
    }
  }
}
