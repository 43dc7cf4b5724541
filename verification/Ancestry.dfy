/** Invariants of the ancestor search of `find_references_internal` (server/src/worker_thread.cpp). */
module Ancestry {
  import opened HeapGraph
  import opened Marking
  import opened Wrappers

  /** One entry of the answer to a reference query. */
  datatype Record = Record(addr: Addr, root: bool, deleted: bool, parents: seq<Addr>)

  function Describe(h: Heap, x: Addr): Record
    requires x in h
  {
    Record(x, h[x].root, !h[x].marked, h[x].parents)
  }

  function Visited(h: Heap): set<Addr> {
    set x | x in h && h[x].visited
  }

  /** Flags of visited objects were set, and nothing else changed. */
  predicate OnlyVisitedDiffers(h0: Heap, h: Heap) {
    && h.Keys == h0.Keys
    && forall x | x in h :: h[x] == h0[x].(visited := h[x].visited) && (h0[x].visited ==> h[x].visited)
  }

  ghost predicate Reported(results: seq<Record>, x: Addr) {
    exists i :: 0 <= i < |results| && results[i].addr == x
  }

  ghost predicate NamedParent(results: seq<Record>, x: Addr) {
    exists i :: 0 <= i < |results| && x in results[i].parents
  }

  /** The record tells what the worker has recorded of a tracked object: unmarked ones are called deleted. */
  ghost predicate Tells(h: Heap, r: Record) {
    && r.addr in h && r.parents == h[r.addr].parents
    && (r.root <==> h[r.addr].root) && (r.deleted <==> !h[r.addr].marked)
  }

  /**
    The answer to a query: what is reached through unvisited parents, described truly, and the parents of what is
    listed flagged as visited.
   */
  ghost predicate Answers(h0: Heap, requests: seq<Addr>, results: seq<Record>, h: Heap) {
    && (forall x: Addr :: Reported(results, x) <==> FreshAncestor(h0, requests, x))
    && (forall i | 0 <= i < |results| :: Tells(h0, results[i]))
    && OnlyVisitedDiffers(h0, h)
    && (forall x | x in h :: h[x].visited <==> h0[x].visited || NamedParent(results, x))
  }

  /** Everything found so far is asked for. */
  ghost predicate Sound(h0: Heap, requests: seq<Addr>, pending: seq<Addr>, results: seq<Record>) {
    && (forall x | x in pending && x in h0 :: FreshAncestor(h0, requests, x))
    && (forall i | 0 <= i < |results| ::
          && results[i].addr in h0 && results[i] == Describe(h0, results[i].addr)
          && FreshAncestor(h0, requests, results[i].addr))
  }

  ghost predicate VisitedNamed(h0: Heap, h: Heap, results: seq<Record>) {
    forall x | x in h && x in h0 && h[x].visited :: h0[x].visited || NamedParent(results, x)
  }

  /** Every tracked request and every newly visited object is reported or still pending. */
  ghost predicate Covers(h0: Heap, requests: seq<Addr>, h: Heap, pending: seq<Addr>, results: seq<Record>) {
    && (forall x | x in requests && x in h0 :: Reported(results, x) || x in pending)
    && (forall x | x in h && x in h0 && h[x].visited && !h0[x].visited :: Reported(results, x) || x in pending)
  }

  predicate ParentVisited(h0: Heap, h: Heap, x: Addr, k: nat)
    requires x in h0 && k < |h0[x].parents|
  {
    h0[x].parents[k] in h && h[h0[x].parents[k]].visited
  }

  /** The parents of reported objects have been visited; of the current one, the first j. */
  ghost predicate ParentsVisited(h0: Heap, h: Heap, results: seq<Record>, cur: Option<Addr>, j: nat) {
    forall x, k: nat | x in h0 && k < |h0[x].parents| && Reported(results, x) && (cur != Some(x) || k < j) ::
      ParentVisited(h0, h, x, k)
  }

  ghost predicate SearchInv(
    h0: Heap, requests: seq<Addr>, h: Heap, pending: seq<Addr>, results: seq<Record>, cur: Option<Addr>, j: nat)
  {
    && ParentsTracked(h0)
    && OnlyVisitedDiffers(h0, h)
    && Sound(h0, requests, pending, results)
    && Covers(h0, requests, h, pending, results)
    && ParentsVisited(h0, h, results, cur, j)
    && VisitedNamed(h0, h, results)
    && |results| + |pending| + |Visited(h0)| <= |requests| + |Visited(h)|
  }

  lemma SearchStart(h: Heap, requests: seq<Addr>)
    requires ParentsTracked(h)
    ensures SearchInv(h, requests, h, requests, [], None, 0)
  {
    forall x | x in requests && x in h ensures FreshAncestor(h, requests, x) {
      RequestIsAncestor(h, requests, x);
    }
  }

  lemma ReportedAppend(results: seq<Record>, r: Record, x: Addr)
    ensures Reported(results + [r], x) <==> Reported(results, x) || x == r.addr
  {
    var longer := results + [r];
    if Reported(results, x) {
      var i :| 0 <= i < |results| && results[i].addr == x;
      assert longer[i].addr == x;
    }
    if x == r.addr {
      assert longer[|results|].addr == x;
    }
  }

  lemma NamedAppend(results: seq<Record>, r: Record, x: Addr)
    requires NamedParent(results, x)
    ensures NamedParent(results + [r], x)
  {
    var i :| 0 <= i < |results| && x in results[i].parents;
    assert (results + [r])[i] == results[i];
  }

  /** Popping an untracked address, or reporting a tracked one. */
  lemma SearchPop(h0: Heap, requests: seq<Addr>, h: Heap, pending: seq<Addr>, results: seq<Record>)
    requires SearchInv(h0, requests, h, pending, results, None, 0) && pending != []
    ensures var addr, rest := pending[|pending| - 1], pending[..|pending| - 1];
            if addr in h then SearchInv(h0, requests, h, rest, results + [Describe(h0, addr)], Some(addr), 0)
            else SearchInv(h0, requests, h, rest, results, None, 0)
  {
    var addr, rest := pending[|pending| - 1], pending[..|pending| - 1];
    assert forall x :: x in pending <==> x in rest || x == addr;
    if addr in h {
      PopTracked(h0, requests, h, pending, results, addr, rest);
    } else {
      PopUntracked(h0, requests, h, pending, results, addr, rest);
    }
  }

  lemma PopUntracked(
      h0: Heap, requests: seq<Addr>, h: Heap, pending: seq<Addr>, results: seq<Record>, addr: Addr, rest: seq<Addr>)
    requires SearchInv(h0, requests, h, pending, results, None, 0)
    requires addr !in h && |rest| < |pending| && forall x :: x in pending <==> x in rest || x == addr
    ensures SearchInv(h0, requests, h, rest, results, None, 0)
  {
    assert Sound(h0, requests, rest, results);
    assert Covers(h0, requests, h, rest, results);
  }

  lemma PopTracked(
      h0: Heap, requests: seq<Addr>, h: Heap, pending: seq<Addr>, results: seq<Record>, addr: Addr, rest: seq<Addr>)
    requires SearchInv(h0, requests, h, pending, results, None, 0)
    requires addr in h && |rest| < |pending| && forall x :: x in pending <==> x in rest || x == addr
    ensures SearchInv(h0, requests, h, rest, results + [Describe(h0, addr)], Some(addr), 0)
  {
    var longer := results + [Describe(h0, addr)];
    forall x: Addr ensures Reported(longer, x) <==> Reported(results, x) || x == addr {
      ReportedAppend(results, Describe(h0, addr), x);
    }
    assert Covers(h0, requests, h, rest, longer);
    forall x | x in h && x in h0 && h[x].visited ensures h0[x].visited || NamedParent(longer, x) {
      if !h0[x].visited {
        NamedAppend(results, Describe(h0, addr), x);
      }
    }
  }

  lemma VisitDiffers(h0: Heap, h: Heap, results: seq<Record>, p: Addr)
    requires p in h && OnlyVisitedDiffers(h0, h) && VisitedNamed(h0, h, results) && NamedParent(results, p)
    ensures OnlyVisitedDiffers(h0, h[p := h[p].(visited := true)])
    ensures VisitedNamed(h0, h[p := h[p].(visited := true)], results)
  {
  }

  lemma VisitCovers(h0: Heap, requests: seq<Addr>, h: Heap, pending: seq<Addr>, results: seq<Record>, p: Addr)
    requires p in h && OnlyVisitedDiffers(h0, h) && Covers(h0, requests, h, pending, results)
    requires Sound(h0, requests, pending, results) && FreshAncestor(h0, requests, p)
    ensures Covers(h0, requests, h[p := h[p].(visited := true)], pending + [p], results)
    ensures Sound(h0, requests, pending + [p], results)
  {
    assert forall x :: x in pending + [p] <==> x in pending || x == p;
  }

  lemma VisitParentsVisited(h0: Heap, h: Heap, h': Heap, results: seq<Record>, cur: Addr, j: nat)
    requires ParentsVisited(h0, h, results, Some(cur), j)
    requires h'.Keys == h.Keys && forall x | x in h && h[x].visited :: h'[x].visited
    requires cur in h0 && j < |h0[cur].parents| && ParentVisited(h0, h', cur, j)
    ensures ParentsVisited(h0, h', results, Some(cur), j + 1)
  {
    forall x, k: nat | x in h0 && k < |h0[x].parents| && Reported(results, x) && (cur != x || k < j + 1)
      ensures ParentVisited(h0, h', x, k)
    {
      if x != cur || k < j {
        assert ParentVisited(h0, h, x, k);
      }
    }
  }

  lemma VisitParent(
      h0: Heap, requests: seq<Addr>, h: Heap, pending: seq<Addr>, results: seq<Record>, cur: Addr, j: nat, p: Addr)
    requires SearchInv(h0, requests, h, pending, results, Some(cur), j)
    requires cur in h0 && j < |h0[cur].parents| && p == h0[cur].parents[j] && p in h && !h[p].visited
    requires NamedParent(results, p) && FreshAncestor(h0, requests, cur)
    ensures SearchInv(h0, requests, h[p := h[p].(visited := true)], pending + [p], results, Some(cur), j + 1)
  {
    AncestorStep(h0, requests, cur, p);
    VisitedGrows(h, p);
    VisitDiffers(h0, h, results, p);
    VisitCovers(h0, requests, h, pending, results, p);
    VisitParentsVisited(h0, h, h[p := h[p].(visited := true)], results, cur, j);
  }

  /** Looking at the next parent of the object just reported. */
  lemma SearchParent(
      h0: Heap, requests: seq<Addr>, h: Heap, pending: seq<Addr>, results: seq<Record>, cur: Addr, j: nat)
    requires SearchInv(h0, requests, h, pending, results, Some(cur), j)
    requires cur in h0 && Reported(results, cur) && j < |h0[cur].parents|
    ensures h0[cur].parents[j] in h
    ensures var p := h0[cur].parents[j];
            if h[p].visited then SearchInv(h0, requests, h, pending, results, Some(cur), j + 1)
            else SearchInv(h0, requests, h[p := h[p].(visited := true)], pending + [p], results, Some(cur), j + 1)
  {
    var p := h0[cur].parents[j];
    var i :| 0 <= i < |results| && results[i].addr == cur;
    if h[p].visited {
      VisitParentsVisited(h0, h, h, results, cur, j);
    } else {
      assert p in results[i].parents;
      VisitParent(h0, requests, h, pending, results, cur, j, p);
    }
  }

  lemma SearchClose(h0: Heap, requests: seq<Addr>, h: Heap, pending: seq<Addr>, results: seq<Record>, cur: Addr)
    requires cur in h0 && SearchInv(h0, requests, h, pending, results, Some(cur), |h0[cur].parents|)
    ensures SearchInv(h0, requests, h, pending, results, None, 0)
  {
  }

  lemma SearchEnd(h0: Heap, requests: seq<Addr>, h: Heap, results: seq<Record>)
    requires SearchInv(h0, requests, h, [], results, None, 0)
    ensures Answers(h0, requests, results, h)
    ensures |results| + |Visited(h0)| <= |requests| + |Visited(h)| <= |requests| + |h0.Keys|
  {
    VisitedBounded(h);
    forall x: Addr ensures Reported(results, x) <==> FreshAncestor(h0, requests, x) {
      if FreshAncestor(h0, requests, x) {
        var path :| FreshPath(h0, requests, path) && path[|path| - 1] == x;
        EverythingReported(h0, requests, h, results, path, |path| - 1);
      }
    }
    forall x | NamedParent(results, x) ensures x in h && h[x].visited {
      var i :| 0 <= i < |results| && x in results[i].parents;
      NamedVisited(h0, h, results, i, x);
    }
  }

  lemma NamedVisited(h0: Heap, h: Heap, results: seq<Record>, i: nat, x: Addr)
    requires ParentsVisited(h0, h, results, None, 0) && i < |results| && x in results[i].parents
    requires results[i].addr in h0 && results[i] == Describe(h0, results[i].addr)
    ensures x in h && h[x].visited
  {
    var y := results[i].addr;
    assert Reported(results, y);
    var k: nat :| k < |h0[y].parents| && h0[y].parents[k] == x;
    assert ParentVisited(h0, h, y, k);
  }

  lemma {:induction false} EverythingReported(
      h0: Heap, requests: seq<Addr>, h: Heap, results: seq<Record>, path: seq<Addr>, i: nat)
    requires SearchInv(h0, requests, h, [], results, None, 0)
    requires FreshPath(h0, requests, path) && i < |path|
    ensures Reported(results, path[i])
  {
    if i > 0 {
      var x := path[i - 1];
      EverythingReported(h0, requests, h, results, path, i - 1);
      assert path[i - 1 + 1] in h0[x].parents;
      var k: nat :| k < |h0[x].parents| && h0[x].parents[k] == path[i];
      assert ParentVisited(h0, h, x, k);
    }
  }

  /** With all flags clear, as a marking pass leaves them, a query lists every ancestor. */
  lemma FirstQuery(h0: Heap, requests: seq<Addr>, results: seq<Record>, h: Heap)
    requires Answers(h0, requests, results, h) && forall x | x in h0 :: !h0[x].visited
    ensures forall x: Addr :: Reported(results, x) <==> Ancestor(h0, requests, x)
  {
    AllFreshIff(h0, requests);
  }

  /**
    The record is right about the heap h in memory: deleted exactly if the object is not reachable, root exactly if a
    root word hits it, and every reachable object listed once for each of its words that refer to it.
   */
  ghost predicate Accurate(h: Heap, roots: seq<Root>, word: Memory, r: Record) {
    && r.addr in h
    && (r.deleted <==> !Reachable(h, roots, word, r.addr))
    && (r.root <==> RootHit(h, roots, word, r.addr))
    && forall p ::
         multiset(r.parents)[p]
         == if p in h && Reachable(h, roots, word, p) then Hits(word, p, Offsets(h[p].size), r.addr) else 0
  }

  lemma AccurateAfterPass(h: Heap, roots: seq<Root>, word: Memory, marked: Heap, r: Record)
    requires MarkResult(h, roots, word, marked) && Tells(marked, r)
    ensures Accurate(h, roots, word, r)
  {
    FlagsAfterPass(h, roots, word, marked, r.addr);
    forall p
      ensures multiset(r.parents)[p]
           == if p in h && Reachable(h, roots, word, p) then Hits(word, p, Offsets(h[p].size), r.addr) else 0
    {
      ParentsAfterPass(h, roots, word, marked, r.addr, p);
    }
  }

  /** A query on the heap that a marking pass left reports exactly the ancestors, and is right about each of them. */
  lemma QueryAfterPass(
      h: Heap, roots: seq<Root>, word: Memory, marked: Heap, requests: seq<Addr>, results: seq<Record>, after: Heap)
    requires MarkResult(h, roots, word, marked) && Answers(marked, requests, results, after)
    ensures forall x: Addr :: Reported(results, x) <==> Ancestor(marked, requests, x)
    ensures forall i | 0 <= i < |results| :: Accurate(h, roots, word, results[i])
  {
    FirstQuery(marked, requests, results, after);
    forall i | 0 <= i < |results| ensures Accurate(h, roots, word, results[i]) {
      assert Tells(marked, results[i]);
      AccurateAfterPass(h, roots, word, marked, results[i]);
    }
  }

  lemma FlagsAfterPass(h: Heap, roots: seq<Root>, word: Memory, marked: Heap, x: Addr)
    requires MarkResult(h, roots, word, marked) && x in marked
    ensures x in h && (marked[x].marked <==> Reachable(h, roots, word, x))
    ensures marked[x].root <==> RootHit(h, roots, word, x)
  {
  }

  lemma ParentsAfterPass(h: Heap, roots: seq<Root>, word: Memory, marked: Heap, x: Addr, p: Addr)
    requires MarkResult(h, roots, word, marked) && x in marked
    ensures multiset(marked[x].parents)[p]
         == if p in h && Reachable(h, roots, word, p) then Hits(word, p, Offsets(h[p].size), x) else 0
  {
    assert ParentCount(marked, x, p) == multiset(marked[x].parents)[p];
    if p in marked {
      FlagsAfterPass(h, roots, word, marked, p);
    }
  }

  /** Without a marking pass in between, a query about objects already listed gives no ancestors any more. */
  lemma RepeatedQuery(
      h0: Heap, requests: seq<Addr>, results: seq<Record>, h1: Heap,
      requests': seq<Addr>, results': seq<Record>, h2: Heap)
    requires Answers(h0, requests, results, h1) && Answers(h1, requests', results', h2)
    requires forall x | x in requests' && x in h1 :: Reported(results, x)
    ensures forall x: Addr :: Reported(results', x) <==> x in requests' && x in h1
  {
    forall y, p | y in requests' && y in h1 && p in h1[y].parents && p in h1 ensures h1[p].visited {
      var i :| 0 <= i < |results| && results[i].addr == y;
      assert p in results[i].parents;
    }
    forall x: Addr ensures Reported(results', x) <==> x in requests' && x in h1 {
      NothingFresh(h1, requests', x);
    }
  }

  lemma SecondOnPath(h: Heap, requests: seq<Addr>, path: seq<Addr>)
    requires ParentPath(h, requests, path)
    ensures |path| > 1 ==> path[1] in h && path[1] in h[path[0]].parents
  {
    assert |path| > 1 ==> path[0 + 1] in h[path[0]].parents;
  }

  lemma NothingFresh(h: Heap, requests: seq<Addr>, x: Addr)
    requires forall y, p | y in requests && y in h && p in h[y].parents && p in h :: h[p].visited
    ensures FreshAncestor(h, requests, x) <==> x in requests && x in h
  {
    if FreshAncestor(h, requests, x) {
      var path :| FreshPath(h, requests, path) && path[|path| - 1] == x;
      SecondOnPath(h, requests, path);
    }
    if x in requests && x in h {
      RequestIsAncestor(h, requests, x);
    }
  }

  lemma VisitedGrows(h: Heap, p: Addr)
    requires p in h && !h[p].visited
    ensures |Visited(h[p := h[p].(visited := true)])| == |Visited(h)| + 1
  {
    assert Visited(h[p := h[p].(visited := true)]) == Visited(h) + {p};
  }

  lemma VisitedBounded(h: Heap)
    ensures |Visited(h)| <= |h.Keys|
  {
    assert h.Keys == Visited(h) + (h.Keys - Visited(h));
  }
}
