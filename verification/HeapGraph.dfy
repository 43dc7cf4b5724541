/**
  The profiler's view of the managed heap: tracked objects, root areas, and the references between objects
  that a conservative scan of memory finds (server/src/worker_thread.h and .cpp).
 */
module HeapGraph {

  type Addr = nat

  /** The 64-bit word at each byte address; unreadable addresses read as 0. */
  type Memory = Addr -> nat

  const WORD: nat := 8

  /** `alloc_info`; the flags are TMP_ALLOCATED, TMP_VISITED and IS_ROOT. */
  datatype Info = Info(size: nat, marked: bool, visited: bool, root: bool, parents: seq<Addr>)

  type Heap = map<Addr, Info>

  datatype Root = Root(start: Addr, size: nat)

  predicate SameObjects(a: Heap, b: Heap) {
    a.Keys == b.Keys && forall x | x in a :: a[x].size == b[x].size
  }

  function Marked(h: Heap): set<Addr> {
    set x | x in h && h[x].marked
  }

  // ---- What is reachable

  function WordAt(word: Memory, base: Addr, off: nat): nat {
    word(base + off)
  }

  /** The k-th aligned word of root area r. */
  function RootWord(roots: seq<Root>, word: Memory, r: nat, k: nat): nat
    requires r < |roots|
  {
    word(roots[r].start + WORD * k)
  }

  /** Some aligned word of some root area holds q. */
  ghost predicate RootHit(h: Heap, roots: seq<Root>, word: Memory, q: Addr) {
    q != 0 && q in h &&
    exists r: nat, k: nat :: r < |roots| && k < roots[r].size / WORD && RootWord(roots, word, r, k) == q
  }

  /** Byte offsets of an object at which a whole word fits. */
  function Offsets(size: nat): nat {
    if size < WORD then 0 else size - WORD + 1
  }

  /** Object p holds the address of q at some byte offset. */
  ghost predicate Refers(h: Heap, word: Memory, p: Addr, q: Addr) {
    p in h && q in h && exists off: nat :: off + WORD <= h[p].size && WordAt(word, p, off) == q
  }

  /** A chain of references that starts at an object hit by a root word. */
  ghost predicate RootPath(h: Heap, roots: seq<Root>, word: Memory, path: seq<Addr>) {
    && path != []
    && RootHit(h, roots, word, path[0])
    && forall i | 0 <= i < |path| - 1 :: Refers(h, word, path[i], path[i + 1])
  }

  ghost predicate Reachable(h: Heap, roots: seq<Root>, word: Memory, q: Addr) {
    exists path :: RootPath(h, roots, word, path) && path[|path| - 1] == q
  }

  /** How many of the first n byte offsets of p hold q. */
  function Hits(word: Memory, p: Addr, n: nat, q: Addr): nat {
    if n == 0 then 0 else Hits(word, p, n - 1, q) + (if WordAt(word, p, n - 1) == q then 1 else 0)
  }

  lemma RootsAreReachable(h: Heap, roots: seq<Root>, word: Memory, q: Addr)
    requires RootHit(h, roots, word, q)
    ensures Reachable(h, roots, word, q)
  {
    assert RootPath(h, roots, word, [q]);
  }

  lemma ReachableStep(h: Heap, roots: seq<Root>, word: Memory, p: Addr, q: Addr)
    requires Reachable(h, roots, word, p) && Refers(h, word, p, q)
    ensures Reachable(h, roots, word, q)
  {
    var path :| RootPath(h, roots, word, path) && path[|path| - 1] == p;
    var longer := path + [q];
    assert longer[0] == path[0];
    forall i | 0 <= i < |longer| - 1 ensures Refers(h, word, longer[i], longer[i + 1]) {
      if i < |path| - 1 {
        assert Refers(h, word, path[i], path[i + 1]);
      }
    }
    assert RootPath(h, roots, word, longer);
  }

  /** A set that contains the root hits and is closed under references contains everything reachable. */
  lemma ClosedCoversReachable(h: Heap, roots: seq<Root>, word: Memory, m: set<Addr>, q: Addr)
    requires forall x | RootHit(h, roots, word, x) :: x in m
    requires forall x, y | x in m && Refers(h, word, x, y) :: y in m
    requires Reachable(h, roots, word, q)
    ensures q in m
  {
    var path :| RootPath(h, roots, word, path) && path[|path| - 1] == q;
    PathStaysInside(h, roots, word, m, path, |path| - 1);
  }

  lemma {:induction false} PathStaysInside(
      h: Heap, roots: seq<Root>, word: Memory, m: set<Addr>, path: seq<Addr>, i: nat)
    requires forall x | RootHit(h, roots, word, x) :: x in m
    requires forall x, y | x in m && Refers(h, word, x, y) :: y in m
    requires RootPath(h, roots, word, path) && i < |path|
    ensures path[i] in m
  {
    if i > 0 {
      PathStaysInside(h, roots, word, m, path, i - 1);
      assert Refers(h, word, path[i - 1], path[i - 1 + 1]);
    }
  }

  // ---- The parent graph

  ghost predicate ParentsTracked(h: Heap) {
    forall q | q in h :: forall p | p in h[q].parents :: p in h
  }

  /** A chain from a requested address upwards through parents. */
  ghost predicate ParentPath(h: Heap, requests: seq<Addr>, path: seq<Addr>) {
    && path != [] && path[0] in requests
    && (forall i | 0 <= i < |path| :: path[i] in h)
    && forall i | 0 <= i < |path| - 1 :: path[i + 1] in h[path[i]].parents
  }

  /** x is a requested tracked address or an ancestor of one. */
  ghost predicate Ancestor(h: Heap, requests: seq<Addr>, x: Addr)
    ensures Ancestor(h, requests, x) ==> x in h
  {
    exists path :: ParentPath(h, requests, path) && path[|path| - 1] == x
  }

  /** A chain whose parents were all unvisited when the search began; the requests themselves need not be. */
  ghost predicate FreshPath(h: Heap, requests: seq<Addr>, path: seq<Addr>) {
    ParentPath(h, requests, path) && forall i | 0 < i < |path| :: !h[path[i]].visited
  }

  /** x is a requested tracked address or is reached from one through unvisited parents only. */
  ghost predicate FreshAncestor(h: Heap, requests: seq<Addr>, x: Addr) {
    exists path :: FreshPath(h, requests, path) && path[|path| - 1] == x
  }

  lemma RequestIsAncestor(h: Heap, requests: seq<Addr>, x: Addr)
    requires x in requests && x in h
    ensures FreshAncestor(h, requests, x)
  {
    assert FreshPath(h, requests, [x]);
  }

  lemma AncestorStep(h: Heap, requests: seq<Addr>, x: Addr, p: Addr)
    requires FreshAncestor(h, requests, x) && x in h && p in h[x].parents && p in h && !h[p].visited
    ensures FreshAncestor(h, requests, p)
  {
    var path :| FreshPath(h, requests, path) && path[|path| - 1] == x;
    var longer := path + [p];
    forall i | 0 <= i < |longer| - 1 ensures longer[i + 1] in h[longer[i]].parents {
      if i < |path| - 1 {
        assert path[i + 1] in h[path[i]].parents;
      }
    }
    assert ParentPath(h, requests, longer);
    assert FreshPath(h, requests, longer);
  }

  /** Unvisited parents lead to every ancestor exactly if every visited ancestor is itself requested. */
  lemma AllFreshIff(h: Heap, requests: seq<Addr>)
    ensures (forall x: Addr :: FreshAncestor(h, requests, x) <==> Ancestor(h, requests, x))
       <==> (forall x: Addr | Ancestor(h, requests, x) && h[x].visited :: x in requests)
  {
    forall x: Addr | FreshAncestor(h, requests, x) ensures Ancestor(h, requests, x) {
      var path :| FreshPath(h, requests, path) && path[|path| - 1] == x;
    }
    if forall x: Addr | Ancestor(h, requests, x) && h[x].visited :: x in requests {
      forall x: Addr | Ancestor(h, requests, x) ensures FreshAncestor(h, requests, x) {
        var path :| ParentPath(h, requests, path) && path[|path| - 1] == x;
        FreshAlong(h, requests, path);
      }
    } else {
      var x: Addr :| Ancestor(h, requests, x) && h[x].visited && x !in requests;
      assert !FreshAncestor(h, requests, x);
    }
  }

  lemma {:induction false} FreshAlong(h: Heap, requests: seq<Addr>, path: seq<Addr>)
    requires forall x: Addr | Ancestor(h, requests, x) && h[x].visited :: x in requests
    requires ParentPath(h, requests, path)
    ensures FreshAncestor(h, requests, path[|path| - 1])
  {
    var x := path[|path| - 1];
    assert Ancestor(h, requests, x);
    if |path| == 1 || h[x].visited {
      RequestIsAncestor(h, requests, x);
    } else {
      var shorter := path[..|path| - 1];
      assert ParentPath(h, requests, shorter);
      FreshAlong(h, requests, shorter);
      assert path[|path| - 2 + 1] in h[path[|path| - 2]].parents;
      AncestorStep(h, requests, path[|path| - 2], x);
    }
  }
}
