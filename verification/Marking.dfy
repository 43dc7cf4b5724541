/** Invariants of the marking pass of `do_gc_internal` (server/src/worker_thread.cpp), on plain values. */
module Marking {
  import opened HeapGraph
  import opened Wrappers

  predicate NoDuplicates(s: seq<Addr>) {
    forall i, j | 0 <= i < j < |s| :: s[i] != s[j]
  }

  /** Flags and parents as the clearing loop leaves them. */
  function Cleared(h: Heap): (c: Heap)
    ensures SameObjects(h, c)
    ensures forall x | x in c :: c[x] == Info(h[x].size, false, false, false, [])
  {
    map x | x in h :: Info(h[x].size, false, false, false, [])
  }

  // ---- Phase 1: roots

  /** Word k of root area r comes before the scanning position. */
  predicate Before(r: nat, k: nat, atRoot: nat, atWord: nat) {
    r < atRoot || (r == atRoot && k < atWord)
  }

  ghost predicate RootPhase(
    h0: Heap, roots: seq<Root>, word: Memory, h: Heap, stack: seq<Addr>, atRoot: nat, atWord: nat)
  {
    && SameObjects(h0, h)
    && NoDuplicates(stack)
    && (forall x | x in h :: h[x].marked <==> x in stack)
    && (forall x | x in stack :: x in h)
    && (forall x | x in h :: h[x].root == h[x].marked && h[x].parents == [] && !h[x].visited)
    && (forall x | x in stack :: RootHit(h0, roots, word, x))
    && forall r: nat, k: nat |
         r < |roots| && k < roots[r].size / WORD && Before(r, k, atRoot, atWord) ::
         RootWord(roots, word, r, k) != 0 && RootWord(roots, word, r, k) in h ==> h[RootWord(roots, word, r, k)].marked
  }

  lemma RootPhaseStart(h: Heap, roots: seq<Root>, word: Memory)
    ensures RootPhase(h, roots, word, Cleared(h), [], 0, 0)
  {
  }

  lemma RootPhaseNextArea(
      h0: Heap, roots: seq<Root>, word: Memory, h: Heap, stack: seq<Addr>, r: nat)
    requires r < |roots| && RootPhase(h0, roots, word, h, stack, r, roots[r].size / WORD)
    ensures RootPhase(h0, roots, word, h, stack, r + 1, 0)
  {
  }

  function PushRoot(h: Heap, stack: seq<Addr>, q: Addr): (Heap, seq<Addr>) {
    if q != 0 && q in h && !h[q].marked
    then (h[q := h[q].(root := true, marked := true)], stack + [q])
    else (h, stack)
  }

  lemma RootPhaseStep(
      h0: Heap, roots: seq<Root>, word: Memory, h: Heap, stack: seq<Addr>, r: nat, k: nat)
    requires r < |roots| && k < roots[r].size / WORD && RootPhase(h0, roots, word, h, stack, r, k)
    ensures var (h', stack') := PushRoot(h, stack, RootWord(roots, word, r, k));
            RootPhase(h0, roots, word, h', stack', r, k + 1)
  {
    var q := RootWord(roots, word, r, k);
    var (h', stack') := PushRoot(h, stack, q);
    forall x | x in stack' ensures RootHit(h0, roots, word, x) {
      if x !in stack {
        assert RootWord(roots, word, r, k) == x;
      }
    }
    forall r': nat, k': nat |
      r' < |roots| && k' < roots[r'].size / WORD && Before(r', k', r, k + 1)
      ensures RootWord(roots, word, r', k') != 0 && RootWord(roots, word, r', k') in h' ==>
                h'[RootWord(roots, word, r', k')].marked
    {
      if !Before(r', k', r, k) {
        assert r' == r && k' == k;
      }
    }
  }

  // ---- Phase 2: the stack

  /** How many byte offsets of p have been scanned: all of a marked object popped earlier, `off` of the current one. */
  function Scanned(h0: Heap, h: Heap, stack: seq<Addr>, cur: Option<Addr>, off: nat, p: Addr): nat {
    if p !in h || p !in h0 || !h[p].marked || p in stack then 0
    else if cur == Some(p) then off
    else Offsets(h0[p].size)
  }

  /** How often p appears among the parents of q. */
  function ParentCount(h: Heap, q: Addr, p: Addr): nat
    requires q in h
  {
    multiset(h[q].parents)[p]
  }

  /** The tracked objects, the stack and the object being scanned fit together. */
  ghost predicate Consistent(h0: Heap, h: Heap, stack: seq<Addr>, cur: Option<Addr>, off: nat) {
    && SameObjects(h0, h)
    && NoDuplicates(stack)
    && (forall x | x in stack :: x in h && h[x].marked)
    && (cur.Some? ==>
          cur.value in h && h[cur.value].marked && cur.value !in stack && off <= Offsets(h0[cur.value].size))
  }

  ghost predicate Flags(h0: Heap, roots: seq<Root>, word: Memory, h: Heap) {
    && (forall x | x in h && h[x].marked :: Reachable(h0, roots, word, x))
    && (forall x | x in h ::
          (h[x].root <==> RootHit(h0, roots, word, x)) && !h[x].visited && (h[x].root ==> h[x].marked))
  }

  /** Every tracked address found in a scanned word is marked. */
  ghost predicate Closed(h0: Heap, word: Memory, h: Heap, stack: seq<Addr>, cur: Option<Addr>, off: nat) {
    forall p, o: nat | o < Scanned(h0, h, stack, cur, off, p) && WordAt(word, p, o) in h :: h[WordAt(word, p, o)].marked
  }

  ghost predicate ParentsCounted(h0: Heap, word: Memory, h: Heap, stack: seq<Addr>, cur: Option<Addr>, off: nat) {
    forall q, p | q in h :: ParentCount(h, q, p) == Hits(word, p, Scanned(h0, h, stack, cur, off, p), q)
  }

  ghost predicate MarkPhase(
    h0: Heap, roots: seq<Root>, word: Memory, h: Heap, stack: seq<Addr>, cur: Option<Addr>, off: nat)
  {
    && Consistent(h0, h, stack, cur, off)
    && Flags(h0, roots, word, h)
    && Closed(h0, word, h, stack, cur, off)
    && ParentsCounted(h0, word, h, stack, cur, off)
  }

  lemma MarkPhaseStart(h0: Heap, roots: seq<Root>, word: Memory, h: Heap, stack: seq<Addr>)
    requires RootPhase(h0, roots, word, h, stack, |roots|, 0)
    ensures MarkPhase(h0, roots, word, h, stack, None, 0)
  {
    forall x | x in h ensures h[x].root <==> RootHit(h0, roots, word, x) {
      if RootHit(h0, roots, word, x) {
        var r: nat, k: nat :| r < |roots| && k < roots[r].size / WORD && RootWord(roots, word, r, k) == x;
        assert Before(r, k, |roots|, 0);
      }
    }
    forall x | x in h && h[x].marked ensures Reachable(h0, roots, word, x) {
      RootsAreReachable(h0, roots, word, x);
    }
  }

  lemma MarkPhasePop(h0: Heap, roots: seq<Root>, word: Memory, h: Heap, stack: seq<Addr>)
    requires MarkPhase(h0, roots, word, h, stack, None, 0) && stack != []
    ensures MarkPhase(h0, roots, word, h, stack[..|stack| - 1], Some(stack[|stack| - 1]), 0)
  {
    var c, rest := stack[|stack| - 1], stack[..|stack| - 1];
    assert forall p :: p in stack <==> p in rest || p == c;
    assert forall p :: Scanned(h0, h, rest, Some(c), 0, p) == Scanned(h0, h, stack, None, 0, p);
  }

  lemma MarkPhaseFinish(h0: Heap, roots: seq<Root>, word: Memory, h: Heap, stack: seq<Addr>, c: Addr)
    requires c in h0 && MarkPhase(h0, roots, word, h, stack, Some(c), Offsets(h0[c].size))
    ensures MarkPhase(h0, roots, word, h, stack, None, 0)
  {
    assert forall p ::
        Scanned(h0, h, stack, None, 0, p) == Scanned(h0, h, stack, Some(c), Offsets(h0[c].size), p);
  }

  /** What scanning one word of object c does. */
  function Visit(h: Heap, stack: seq<Addr>, c: Addr, q: Addr): (Heap, seq<Addr>) {
    if q !in h then (h, stack)
    else if h[q].marked then (h[q := h[q].(parents := h[q].parents + [c])], stack)
    else (h[q := h[q].(parents := h[q].parents + [c], root := false, marked := true)], stack + [q])
  }

  lemma VisitScanned(h0: Heap, h: Heap, stack: seq<Addr>, c: Addr, off: nat, q: Addr, p: Addr)
    requires Consistent(h0, h, stack, Some(c), off)
    ensures var (h', stack') := Visit(h, stack, c, q);
            Scanned(h0, h', stack', Some(c), off + 1, p) ==
            if p == c then off + 1 else Scanned(h0, h, stack, Some(c), off, p)
  {
  }

  lemma VisitCount(h: Heap, stack: seq<Addr>, c: Addr, q: Addr, x: Addr, p: Addr)
    requires x in h
    ensures var (h', stack') := Visit(h, stack, c, q);
            x in h' && ParentCount(h', x, p) == ParentCount(h, x, p) + (if x == q && p == c then 1 else 0)
  {
  }

  lemma VisitParents(h0: Heap, word: Memory, h: Heap, stack: seq<Addr>, c: Addr, off: nat, x: Addr, p: Addr)
    requires Consistent(h0, h, stack, Some(c), off) && x in h
    requires ParentCount(h, x, p) == Hits(word, p, Scanned(h0, h, stack, Some(c), off, p), x)
    ensures var (h', stack') := Visit(h, stack, c, WordAt(word, c, off));
            x in h' && ParentCount(h', x, p) == Hits(word, p, Scanned(h0, h', stack', Some(c), off + 1, p), x)
  {
    var q := WordAt(word, c, off);
    VisitScanned(h0, h, stack, c, off, q, p);
    VisitCount(h, stack, c, q, x, p);
    if p == c {
      assert Scanned(h0, h, stack, Some(c), off, p) == off;
      assert Hits(word, p, off + 1, x) == Hits(word, p, off, x) + (if q == x then 1 else 0);
    }
  }

  lemma VisitClosed(h0: Heap, word: Memory, h: Heap, stack: seq<Addr>, c: Addr, off: nat, p: Addr, o: nat)
    requires Consistent(h0, h, stack, Some(c), off) && Closed(h0, word, h, stack, Some(c), off)
    requires var (h', stack') := Visit(h, stack, c, WordAt(word, c, off));
             o < Scanned(h0, h', stack', Some(c), off + 1, p) && WordAt(word, p, o) in h'
    ensures var (h', stack') := Visit(h, stack, c, WordAt(word, c, off));
            h'[WordAt(word, p, o)].marked
  {
    var q := WordAt(word, c, off);
    VisitScanned(h0, h, stack, c, off, q, p);
    if !(p == c && o == off) {
      assert o < Scanned(h0, h, stack, Some(c), off, p);
    }
  }

  lemma VisitConsistent(h0: Heap, h: Heap, stack: seq<Addr>, c: Addr, off: nat, q: Addr)
    requires Consistent(h0, h, stack, Some(c), off) && off < Offsets(h0[c].size)
    ensures var (h', stack') := Visit(h, stack, c, q);
            Consistent(h0, h', stack', Some(c), off + 1)
  {
  }

  lemma VisitReachable(h0: Heap, roots: seq<Root>, word: Memory, h: Heap, stack: seq<Addr>, c: Addr, off: nat)
    requires Consistent(h0, h, stack, Some(c), off) && off < Offsets(h0[c].size)
    requires Reachable(h0, roots, word, c) && WordAt(word, c, off) in h
    ensures Reachable(h0, roots, word, WordAt(word, c, off))
  {
    var q := WordAt(word, c, off);
    assert Refers(h0, word, c, q) by {
      assert off + WORD <= h0[c].size;
    }
    ReachableStep(h0, roots, word, c, q);
  }

  lemma VisitFlags(h0: Heap, roots: seq<Root>, word: Memory, h: Heap, stack: seq<Addr>, c: Addr, q: Addr)
    requires Flags(h0, roots, word, h) && (q in h ==> Reachable(h0, roots, word, q))
    ensures Flags(h0, roots, word, Visit(h, stack, c, q).0)
  {
    var h' := Visit(h, stack, c, q).0;
    forall x | x in h'
      ensures (h'[x].root <==> RootHit(h0, roots, word, x)) && !h'[x].visited && (h'[x].root ==> h'[x].marked)
    {
      assert h'[x].root == h[x].root;
    }
  }

  lemma MarkPhaseVisit(h0: Heap, roots: seq<Root>, word: Memory, h: Heap, stack: seq<Addr>, c: Addr, off: nat)
    requires MarkPhase(h0, roots, word, h, stack, Some(c), off) && off < Offsets(h0[c].size)
    ensures var (h', stack') := Visit(h, stack, c, WordAt(word, c, off));
            MarkPhase(h0, roots, word, h', stack', Some(c), off + 1)
  {
    var (h', stack') := Visit(h, stack, c, WordAt(word, c, off));
    VisitConsistent(h0, h, stack, c, off, WordAt(word, c, off));
    if WordAt(word, c, off) in h {
      VisitReachable(h0, roots, word, h, stack, c, off);
    }
    VisitFlags(h0, roots, word, h, stack, c, WordAt(word, c, off));
    assert ParentsCounted(h0, word, h', stack', Some(c), off + 1) by {
      forall x, p | x in h'
        ensures ParentCount(h', x, p) == Hits(word, p, Scanned(h0, h', stack', Some(c), off + 1, p), x) {
        VisitParents(h0, word, h, stack, c, off, x, p);
      }
    }
    assert Closed(h0, word, h', stack', Some(c), off + 1) by {
      forall p, o: nat | o < Scanned(h0, h', stack', Some(c), off + 1, p) && WordAt(word, p, o) in h'
        ensures h'[WordAt(word, p, o)].marked
      {
        VisitClosed(h0, word, h, stack, c, off, p, o);
      }
    }
  }

  // ---- The result

  /**
    Exactly the reachable objects are marked, exactly those hit by a root word are flagged as roots, and the
    parents of x list each marked object once per byte offset at which it holds x.
   */
  ghost predicate MarkResult(h0: Heap, roots: seq<Root>, word: Memory, h: Heap) {
    && SameObjects(h0, h)
    && (forall x | x in h ::
          && (h[x].marked <==> Reachable(h0, roots, word, x))
          && (h[x].root <==> RootHit(h0, roots, word, x))
          && !h[x].visited)
    && ParentsExact(h0, word, h)
  }

  ghost predicate ParentsExact(h0: Heap, word: Memory, h: Heap)
    requires SameObjects(h0, h)
  {
    forall x, p | x in h ::
      ParentCount(h, x, p) == if p in h && h[p].marked then Hits(word, p, Offsets(h0[p].size), x) else 0
  }

  lemma MarkedIsClosed(h0: Heap, word: Memory, h: Heap, x: Addr, y: Addr)
    requires SameObjects(h0, h) && Closed(h0, word, h, [], None, 0)
    requires x in Marked(h) && Refers(h0, word, x, y)
    ensures y in Marked(h)
  {
    var off: nat :| off + WORD <= h0[x].size && WordAt(word, x, off) == y;
    assert off < Scanned(h0, h, [], None, 0, x);
  }

  lemma MarkPhaseEnd(h0: Heap, roots: seq<Root>, word: Memory, h: Heap)
    requires MarkPhase(h0, roots, word, h, [], None, 0)
    ensures MarkResult(h0, roots, word, h)
  {
    var m := Marked(h);
    forall x, y | x in m && Refers(h0, word, x, y) ensures y in m {
      MarkedIsClosed(h0, word, h, x, y);
    }
    forall x | x in h ensures h[x].marked <==> Reachable(h0, roots, word, x) {
      if Reachable(h0, roots, word, x) {
        ClosedCoversReachable(h0, roots, word, m, x);
      }
    }
    forall x, p | x in h
      ensures ParentCount(h, x, p) == if p in h && h[p].marked then Hits(word, p, Offsets(h0[p].size), x) else 0
    {
      assert ParentCount(h, x, p) == Hits(word, p, Scanned(h0, h, [], None, 0, p), x);
    }
  }

  /** Parents are marked, hence tracked, also after everything unmarked is dropped. */
  lemma ParentsAreMarked(h0: Heap, roots: seq<Root>, word: Memory, h: Heap)
    requires MarkResult(h0, roots, word, h)
    ensures ParentsTracked(h)
    ensures forall x, p | x in h && p in h[x].parents :: p in h && h[p].marked
  {
    forall x, p | x in h && p in h[x].parents ensures p in h && h[p].marked {
      ParentIsMarked(h0, word, h, x, p);
    }
  }

  lemma ParentIsMarked(h0: Heap, word: Memory, h: Heap, x: Addr, p: Addr)
    requires SameObjects(h0, h) && ParentsExact(h0, word, h) && x in h && p in h[x].parents
    ensures p in h && h[p].marked
  {
    assert ParentCount(h, x, p) > 0;
  }

  /** Marked and pushed objects grow together. */
  lemma PushRootCount(h: Heap, stack: seq<Addr>, q: Addr)
    ensures var (h', stack') := PushRoot(h, stack, q);
            |Marked(h')| - |Marked(h)| == |stack'| - |stack|
  {
    var (h', stack') := PushRoot(h, stack, q);
    assert Marked(h') == if |stack'| > |stack| then Marked(h) + {q} else Marked(h);
  }

  lemma VisitCounts(h: Heap, stack: seq<Addr>, c: Addr, q: Addr)
    ensures var (h', stack') := Visit(h, stack, c, q);
            |Marked(h')| - |Marked(h)| == |stack'| - |stack| >= 0
  {
    var (h', stack') := Visit(h, stack, c, q);
    assert Marked(h') == if |stack'| > |stack| then Marked(h) + {q} else Marked(h);
  }

  lemma MarkedBounded(h: Heap)
    ensures |Marked(h)| <= |h.Keys|
  {
    assert h.Keys == Marked(h) + (h.Keys - Marked(h));
  }
}
