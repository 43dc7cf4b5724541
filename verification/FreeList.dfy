/**
  The lock-free list of free blocks (common/concurrentqueue.h, `FreeList`).

  Any number of threads run `add` and `try_get`. Every load, store, fetch-and-add and
  compare-and-swap of the C++ code is one step here, and steps of different threads
  interleave freely. A thread is its program counter together with its local variables.
 */
module FreeList {
  import opened Wrappers

  /** Block identities; a possibly-null block pointer is an `Option<Node>`. */
  type Node = nat
  type Ptr = Option<Node>

  const TWO_32: nat := 0x1_0000_0000
  const SHOULD_BE_ON_FREELIST: nat := 0x8000_0000
  /** More threads than this could overflow the 31 reference bits. */
  const MAX_THREADS: nat := 0x7FFF_FFFE

  /** What a thread does once `add_knowing_refcount_is_zero` returns. */
  datatype Return = ToCaller | ToGetLoop(head: Ptr)

  datatype Pc =
    | Idle
    // try_get
    | GetLoadHead
    | GetLoadRefs(head: Node)
    | GetCasRefs(head: Node, refs: nat)
    | GetLoadNext(head: Node)
    | GetCasHead(head: Node, next: Ptr)
    | GetDropRef(prevHead: Node, newHead: Ptr)
    | GetDropTwo(head: Node)
    // add
    | AddFlag(node: Node)
    // add_knowing_refcount_is_zero
    | ReaddLoadHead(node: Node, ret: Return)
    | ReaddStoreNext(node: Node, seen: Ptr, ret: Return)
    | ReaddStoreRefs(node: Node, seen: Ptr, ret: Return)
    | ReaddCasHead(node: Node, seen: Ptr, ret: Return)
    | ReaddGiveUp(node: Node, seen: Ptr, ret: Return)

  /**
    `owned` counts, for each block, how many clients were told it is theirs; a multiset,
    so that handing a block to two owners would be representable.
   */
  datatype State = State(
    head: Ptr,
    refs: map<Node, nat>,
    next: map<Node, Ptr>,
    owned: multiset<Node>,
    pcs: seq<Pc>)

  datatype Action =
    | Create(node: Node)             // a client allocates a block
    | BeginAdd(thread: nat, n: Node) // an owner gives its block up
    | BeginGet(thread: nat)
    | Advance(thread: nat)           // the thread's next atomic operation

  function Init(threads: nat): State {
    State(None, map[], map[], multiset{}, seq(threads, _ => Idle))
  }

  /** Unsigned 32-bit arithmetic. */
  function Add32(x: int, y: int): nat {
    (x + y) % TWO_32
  }

  function GetLoop(head: Ptr): Pc {
    match head
    case None => Idle
    case Some(h) => GetLoadRefs(h)
  }

  function Resume(ret: Return): Pc {
    match ret
    case ToCaller => Idle
    case ToGetLoop(h) => GetLoop(h)
  }

  /** Blocks a program counter may dereference in its next step exist. */
  predicate Dereferences(s: State, pc: Pc) {
    match pc
    case Idle => true
    case GetLoadHead => true
    case GetLoadRefs(h) => h in s.refs
    case GetCasRefs(h, _) => h in s.refs
    case GetLoadNext(h) => h in s.next
    case GetCasHead(_, _) => true
    case GetDropRef(h, _) => h in s.refs
    case GetDropTwo(h) => h in s.refs
    case AddFlag(n) => n in s.refs
    case ReaddLoadHead(_, _) => true
    case ReaddStoreNext(_, _, _) => true
    case ReaddStoreRefs(n, _, _) => n in s.refs
    case ReaddCasHead(_, _, _) => true
    case ReaddGiveUp(n, _, _) => n in s.refs
  }

  predicate Enabled(s: State, a: Action) {
    match a
    case Create(n) => n !in s.refs && n !in s.next
    case BeginAdd(t, n) => t < |s.pcs| && s.pcs[t].Idle? && n in s.owned
    case BeginGet(t) => t < |s.pcs| && s.pcs[t].Idle?
    case Advance(t) => t < |s.pcs| && !s.pcs[t].Idle? && Dereferences(s, s.pcs[t])
  }

  function At(s: State, t: nat, pc: Pc): State
    requires t < |s.pcs|
  {
    s.(pcs := s.pcs[t := pc])
  }

  function Apply(s: State, a: Action): State
    requires Enabled(s, a)
  {
    match a
    case Create(n) => s.(refs := s.refs[n := 0], next := s.next[n := None], owned := s.owned + multiset{n})
    case BeginAdd(t, n) => At(s, t, AddFlag(n)).(owned := s.owned - multiset{n})
    case BeginGet(t) => At(s, t, GetLoadHead)
    case Advance(t) => Step(s, t)
  }

  /** The next atomic operation of thread t. */
  function Step(s: State, t: nat): State
    requires Enabled(s, Advance(t))
  {
    match s.pcs[t]
    case GetLoadHead => At(s, t, GetLoop(s.head))
    case GetLoadRefs(h) =>
      if s.refs[h] % SHOULD_BE_ON_FREELIST == 0 then At(s, t, GetLoadHead) else At(s, t, GetCasRefs(h, s.refs[h]))
    case GetCasRefs(h, r) =>
      if s.refs[h] != r then At(s, t, GetLoadHead)
      else At(s, t, GetLoadNext(h)).(refs := s.refs[h := Add32(r, 1)])
    case GetLoadNext(h) => At(s, t, GetCasHead(h, s.next[h]))
    case GetCasHead(h, n) =>
      // A failed compare-and-swap reloads the expected value from the head.
      if s.head != Some(h) then At(s, t, GetDropRef(h, s.head)) else At(s, t, GetDropTwo(h)).(head := n)
    case GetDropRef(h, newHead) =>
      var pc := if s.refs[h] == SHOULD_BE_ON_FREELIST + 1 then ReaddLoadHead(h, ToGetLoop(newHead))
                else GetLoop(newHead);
      At(s, t, pc).(refs := s.refs[h := Add32(s.refs[h], -1)])
    case GetDropTwo(h) =>
      At(s, t, Idle).(refs := s.refs[h := Add32(s.refs[h], -2)], owned := s.owned + multiset{h})
    case AddFlag(n) =>
      At(s, t, if s.refs[n] == 0 then ReaddLoadHead(n, ToCaller) else Idle)
      .(refs := s.refs[n := Add32(s.refs[n], SHOULD_BE_ON_FREELIST)])
    case ReaddLoadHead(n, ret) => At(s, t, ReaddStoreNext(n, s.head, ret))
    case ReaddStoreNext(n, h, ret) => At(s, t, ReaddStoreRefs(n, h, ret)).(next := s.next[n := h])
    case ReaddStoreRefs(n, h, ret) => At(s, t, ReaddCasHead(n, h, ret)).(refs := s.refs[n := 1])
    case ReaddCasHead(n, h, ret) =>
      if s.head == h then At(s, t, Resume(ret)).(head := Some(n)) else At(s, t, ReaddGiveUp(n, s.head, ret))
    case ReaddGiveUp(n, h, ret) =>
      At(s, t, if s.refs[n] == 1 then ReaddStoreNext(n, h, ret) else Resume(ret))
      .(refs := s.refs[n := Add32(s.refs[n], SHOULD_BE_ON_FREELIST - 1)])
  }

  /** The actions can be performed one after the other. */
  predicate Runs(s: State, actions: seq<Action>)
    decreases |actions|
  {
    actions == [] || (Enabled(s, actions[0]) && Runs(Apply(s, actions[0]), actions[1..]))
  }

  function After(s: State, actions: seq<Action>): State
    requires Runs(s, actions)
    decreases |actions|
  {
    if actions == [] then s else After(Apply(s, actions[0]), actions[1..])
  }

  // ---- What each thread contributes to a block's bookkeeping

  datatype Kind =
    | Custody // the thread is the only one responsible for the block
    | Readd   // the thread is putting the block back and its refcount is zero
    | Ref     // references to the block that the thread must still drop

  function Amount(k: Kind, pc: Pc, n: Node): nat {
    match k
    case Custody =>
      match pc {
        case GetDropTwo(h) => One(h == n)
        case AddFlag(m) => One(m == n)
        case ReaddLoadHead(m, _) => One(m == n)
        case ReaddStoreNext(m, _, _) => One(m == n)
        case ReaddStoreRefs(m, _, _) => One(m == n)
        case ReaddCasHead(m, _, _) => One(m == n)
        case ReaddGiveUp(m, _, _) => One(m == n)
        case _ => 0
      }
    case Readd =>
      match pc {
        case ReaddLoadHead(m, _) => One(m == n)
        case ReaddStoreNext(m, _, _) => One(m == n)
        case ReaddStoreRefs(m, _, _) => One(m == n)
        case _ => 0
      }
    case Ref =>
      match pc {
        case GetLoadNext(h) => One(h == n)
        case GetCasHead(h, _) => One(h == n)
        case GetDropRef(h, _) => One(h == n)
        case GetDropTwo(h) => 2 * One(h == n)
        case ReaddCasHead(m, _, _) => One(m == n)
        case ReaddGiveUp(m, _, _) => One(m == n)
        case _ => 0
      }
  }

  function One(b: bool): nat {
    if b then 1 else 0
  }

  /** The sum of `Amount` over all threads. */
  function Total(k: Kind, pcs: seq<Pc>, n: Node): nat {
    if pcs == [] then 0 else Amount(k, pcs[0], n) + Total(k, pcs[1..], n)
  }

  lemma {:induction false} TotalUpdate(k: Kind, pcs: seq<Pc>, t: nat, pc: Pc, n: Node)
    requires t < |pcs|
    ensures Total(k, pcs[t := pc], n) == Total(k, pcs, n) - Amount(k, pcs[t], n) + Amount(k, pc, n)
  {
    if t == 0 {
      assert pcs[t := pc][1..] == pcs[1..];
    } else {
      assert pcs[t := pc][1..] == pcs[1..][t - 1 := pc];
      TotalUpdate(k, pcs[1..], t - 1, pc, n);
    }
  }

  lemma {:induction false} TotalAtLeast(k: Kind, pcs: seq<Pc>, t: nat, n: Node)
    requires t < |pcs|
    ensures Amount(k, pcs[t], n) <= Total(k, pcs, n)
  {
    if t > 0 {
      TotalAtLeast(k, pcs[1..], t - 1, n);
    }
  }

  /** Two different threads contribute separately. */
  lemma TotalOfTwo(k: Kind, pcs: seq<Pc>, t: nat, u: nat, n: Node)
    requires t < |pcs| && u < |pcs| && t != u
    ensures Amount(k, pcs[t], n) + Amount(k, pcs[u], n) <= Total(k, pcs, n)
  {
    TotalUpdate(k, pcs, t, Idle, n);
    TotalAtLeast(k, pcs[t := Idle], u, n);
  }

  /** Each thread holds at most one reference beyond those that go with custody. */
  lemma {:induction false} RefsBounded(pcs: seq<Pc>, n: Node)
    ensures Total(Ref, pcs, n) <= |pcs| + Total(Custody, pcs, n)
  {
    if pcs != [] {
      RefsBounded(pcs[1..], n);
    }
  }

  lemma {:induction false} TotalOfIdle(k: Kind, pcs: seq<Pc>, n: Node)
    requires forall t | 0 <= t < |pcs| :: pcs[t] == Idle
    ensures Total(k, pcs, n) == 0
  {
    if pcs != [] {
      TotalOfIdle(k, pcs[1..], n);
    }
  }

  // ---- The invariant

  /** Ghost view of a state: the linked blocks in order, and the flagged blocks no thread is re-adding yet. */
  datatype View = View(list: seq<Node>, pending: set<Node>)

  /** Following `next` from `head` visits exactly `list`. */
  ghost predicate Chain(head: Ptr, next: map<Node, Ptr>, list: seq<Node>)
    decreases |list|
  {
    if list == [] then head == None
    else head == Some(list[0]) && list[0] in next && Chain(next[list[0]], next, list[1..])
  }

  /** In how many places block n is: with a client, linked, waiting for its last reference, or with a thread. */
  ghost function Places(s: State, v: View, n: Node): nat {
    s.owned[n] + multiset(v.list)[n] + One(n in v.pending) + Total(Custody, s.pcs, n)
  }

  /** The references that exist: the list's own one and those of the threads. */
  ghost function Live(s: State, v: View, n: Node): nat {
    multiset(v.list)[n] + Total(Ref, s.pcs, n)
  }

  ghost predicate BlockInv(s: State, v: View, n: Node)
    requires n in s.refs
  {
    && Places(s, v, n) == 1
    && s.refs[n] == SHOULD_BE_ON_FREELIST * (One(n in v.pending) + Total(Readd, s.pcs, n)) + Live(s, v, n)
    && (n in v.pending ==> Total(Ref, s.pcs, n) > 0)
    && (Total(Readd, s.pcs, n) > 0 ==> Total(Ref, s.pcs, n) == 0)
  }

  predicate Known(s: State, p: Ptr) {
    p.Some? ==> p.value in s.refs
  }

  /** What a thread's local variables say about the shared state. */
  ghost predicate LocalInv(s: State, pc: Pc) {
    match pc
    case Idle => true
    case GetLoadHead => true
    case GetLoadRefs(h) => h in s.refs
    case GetCasRefs(h, r) => h in s.refs && r % SHOULD_BE_ON_FREELIST != 0
    case GetLoadNext(h) => h in s.refs
    case GetCasHead(h, n) => h in s.refs && h in s.next && s.next[h] == n
    case GetDropRef(h, n) => h in s.refs && Known(s, n)
    case GetDropTwo(h) => h in s.refs
    case AddFlag(n) => n in s.refs
    case ReaddLoadHead(n, ret) => n in s.refs && KnownReturn(s, ret)
    case ReaddStoreNext(n, h, ret) => n in s.refs && Known(s, h) && KnownReturn(s, ret)
    case ReaddStoreRefs(n, h, ret) => n in s.refs && Known(s, h) && KnownReturn(s, ret) && n in s.next && s.next[n] == h
    case ReaddCasHead(n, h, ret) => n in s.refs && Known(s, h) && KnownReturn(s, ret) && n in s.next && s.next[n] == h
    case ReaddGiveUp(n, h, ret) => n in s.refs && Known(s, h) && KnownReturn(s, ret)
  }

  predicate KnownReturn(s: State, ret: Return) {
    ret.ToGetLoop? ==> Known(s, ret.head)
  }

  ghost predicate Inv(s: State, v: View) {
    && |s.pcs| <= MAX_THREADS
    && s.next.Keys == s.refs.Keys
    && Chain(s.head, s.next, v.list)
    && (forall n | n in s.owned || n in v.list || n in v.pending :: n in s.refs)
    && (forall t | 0 <= t < |s.pcs| :: LocalInv(s, s.pcs[t]))
    && (forall n | n in s.refs :: BlockInv(s, v, n))
  }

  lemma InitInv(threads: nat)
    requires threads <= MAX_THREADS
    ensures Inv(Init(threads), View([], {}))
  {
  }

  // ---- Frame lemmas

  lemma {:induction false} ChainKnown(head: Ptr, next: map<Node, Ptr>, list: seq<Node>)
    requires Chain(head, next, list)
    ensures forall n | n in list :: n in next
    decreases |list|
  {
    if list != [] {
      ChainKnown(next[list[0]], next, list[1..]);
    }
  }

  /** Writing the link of a block that is not linked leaves the chain alone. */
  lemma {:induction false} ChainFrame(head: Ptr, next: map<Node, Ptr>, list: seq<Node>, n: Node, p: Ptr)
    requires Chain(head, next, list) && n !in list
    ensures Chain(head, next[n := p], list)
    decreases |list|
  {
    if list != [] {
      ChainFrame(next[list[0]], next, list[1..], n, p);
    }
  }

  lemma {:induction false} ChainUnique(head: Ptr, next: map<Node, Ptr>, a: seq<Node>, b: seq<Node>)
    requires Chain(head, next, a) && Chain(head, next, b)
    ensures a == b
    decreases |a|
  {
    if a != [] && b != [] {
      ChainUnique(next[a[0]], next, a[1..], b[1..]);
      assert a == [a[0]] + a[1..] && b == [b[0]] + b[1..];
    }
  }

  /** The only block a program counter contributes to. */
  function Subject(pc: Pc): Ptr {
    match pc
    case Idle => None
    case GetLoadHead => None
    case GetLoadRefs(_) => None
    case GetCasRefs(_, _) => None
    case GetLoadNext(h) => Some(h)
    case GetCasHead(h, _) => Some(h)
    case GetDropRef(h, _) => Some(h)
    case GetDropTwo(h) => Some(h)
    case AddFlag(n) => Some(n)
    case ReaddLoadHead(n, _) => Some(n)
    case ReaddStoreNext(n, _, _) => Some(n)
    case ReaddStoreRefs(n, _, _) => Some(n)
    case ReaddCasHead(n, _, _) => Some(n)
    case ReaddGiveUp(n, _, _) => Some(n)
  }

  lemma OnlySubject(pc: Pc, n: Node)
    requires Subject(pc) != Some(n)
    ensures Amount(Custody, pc, n) == Amount(Readd, pc, n) == Amount(Ref, pc, n) == 0
  {
  }

  lemma TotalsAfter(pcs: seq<Pc>, t: nat, pc: Pc, n: Node)
    requires t < |pcs|
    ensures Total(Custody, pcs[t := pc], n)
         == Total(Custody, pcs, n) - Amount(Custody, pcs[t], n) + Amount(Custody, pc, n)
    ensures Total(Readd, pcs[t := pc], n) == Total(Readd, pcs, n) - Amount(Readd, pcs[t], n) + Amount(Readd, pc, n)
    ensures Total(Ref, pcs[t := pc], n) == Total(Ref, pcs, n) - Amount(Ref, pcs[t], n) + Amount(Ref, pc, n)
    ensures Amount(Custody, pcs[t], n) <= Total(Custody, pcs, n)
    ensures Amount(Readd, pcs[t], n) <= Total(Readd, pcs, n)
    ensures Amount(Ref, pcs[t], n) <= Total(Ref, pcs, n)
  {
    TotalUpdate(Custody, pcs, t, pc, n);
    TotalUpdate(Readd, pcs, t, pc, n);
    TotalUpdate(Ref, pcs, t, pc, n);
    TotalAtLeast(Custody, pcs, t, n);
    TotalAtLeast(Readd, pcs, t, n);
    TotalAtLeast(Ref, pcs, t, n);
  }

  /** The reference bits never overflow into the flag. */
  lemma NoOverflow(s: State, v: View, n: Node)
    requires Inv(s, v) && n in s.refs
    ensures Live(s, v, n) < SHOULD_BE_ON_FREELIST
    ensures One(n in v.pending) + Total(Readd, s.pcs, n) <= 1
    ensures s.refs[n] < TWO_32
  {
    RefsBounded(s.pcs, n);
    ReaddIsCustody(s.pcs, n);
    assert BlockInv(s, v, n);
  }

  lemma {:induction false} ReaddIsCustody(pcs: seq<Pc>, n: Node)
    ensures Total(Readd, pcs, n) <= Total(Custody, pcs, n)
  {
    if pcs != [] {
      ReaddIsCustody(pcs[1..], n);
    }
  }

  // ---- Every step keeps the invariant

  /** A step that only moves the program counter, with the same references and responsibilities. */
  lemma LocalStep(s: State, v: View, t: nat, pc: Pc)
    requires Inv(s, v) && t < |s.pcs|
    requires LocalInv(s, pc)
    requires Subject(pc) == Subject(s.pcs[t])
    requires Subject(pc).Some? ==>
               var n := Subject(pc).value;
               && Amount(Custody, pc, n) == Amount(Custody, s.pcs[t], n)
               && Amount(Readd, pc, n) == Amount(Readd, s.pcs[t], n)
               && Amount(Ref, pc, n) == Amount(Ref, s.pcs[t], n)
    ensures Inv(At(s, t, pc), v)
  {
    var s' := At(s, t, pc);
    forall u | 0 <= u < |s'.pcs| ensures LocalInv(s', s'.pcs[u]) {
      SameLocal(s, s', s'.pcs[u]);
    }
    forall n | n in s'.refs ensures BlockInv(s', v, n) {
      SameBlock(s, v, t, pc, n);
    }
  }

  lemma SameBlock(s: State, v: View, t: nat, pc: Pc, n: Node)
    requires t < |s.pcs| && n in s.refs && BlockInv(s, v, n)
    requires Amount(Custody, pc, n) == Amount(Custody, s.pcs[t], n)
    requires Amount(Readd, pc, n) == Amount(Readd, s.pcs[t], n)
    requires Amount(Ref, pc, n) == Amount(Ref, s.pcs[t], n)
    ensures BlockInv(At(s, t, pc), v, n)
  {
    TotalsAfter(s.pcs, t, pc, n);
  }

  /** LocalInv only looks at which blocks exist and at the links. */
  lemma SameLocal(s: State, s': State, pc: Pc)
    requires s.refs.Keys <= s'.refs.Keys && s.next == s'.next
    ensures LocalInv(s, pc) ==> LocalInv(s', pc)
  {
  }

  /**
    A step that changes one block's counter and possibly its custody. The caller accounts for that block;
    every other block is untouched.
   */
  lemma CounterStep(s: State, v: View, t: nat, n: Node, s': State, v': View, pc: Pc)
    requires Inv(s, v) && t < |s.pcs| && n in s.refs
    requires s'.pcs == s.pcs[t := pc] && s'.next == s.next && s'.refs.Keys == s.refs.Keys
    requires Chain(s'.head, s'.next, v'.list)
    requires forall m | m != n && m in s.refs :: s'.refs[m] == s.refs[m]
    requires forall m | m != n :: s'.owned[m] == s.owned[m]
    requires forall m | m != n :: multiset(v'.list)[m] == multiset(v.list)[m]
    requires forall m | m != n :: m in v'.pending <==> m in v.pending
    requires Subject(pc) in {None, Some(n)} && Subject(s.pcs[t]) in {None, Some(n)}
    requires LocalInv(s, pc)
    requires BlockInv(s', v', n)
    ensures Inv(s', v')
  {
    forall u | 0 <= u < |s'.pcs| ensures LocalInv(s', s'.pcs[u]) {
      SameLocal(s, s', s'.pcs[u]);
    }
    forall m | m in s'.refs ensures BlockInv(s', v', m) {
      if m != n {
        OnlySubject(pc, m);
        OnlySubject(s.pcs[t], m);
        SameBlock(s, v, t, pc, m);
      }
    }
    forall m | m in s'.owned || m in v'.list || m in v'.pending ensures m in s'.refs {
      if m != n {
        assert m in v'.list ==> multiset(v'.list)[m] > 0;
        assert multiset(v.list)[m] > 0 ==> m in v.list;
      }
    }
  }

  lemma Exact(x: int, y: int)
    requires 0 <= x + y < TWO_32
    ensures Add32(x, y) == x + y
  {
  }

  lemma CasRefsBlock(s: State, v: View, t: nat, s': State, h: Node)
    requires t < |s.pcs| && h in s.refs && BlockInv(s, v, h) && s.refs[h] < TWO_32
    requires s.pcs[t] == GetCasRefs(h, s.refs[h]) && s.refs[h] % SHOULD_BE_ON_FREELIST != 0
    requires s' == At(s, t, GetLoadNext(h)).(refs := s.refs[h := Add32(s.refs[h], 1)])
    requires |s.pcs| <= MAX_THREADS
    ensures BlockInv(s', v, h)
  {
    TotalsAfter(s.pcs, t, GetLoadNext(h), h);
    RefsBounded(s'.pcs, h);
    ReaddIsCustody(s.pcs, h);
    Exact(s.refs[h], 1);
  }

  lemma CasRefsStep(s: State, v: View, t: nat)
    requires Inv(s, v) && Enabled(s, Advance(t)) && s.pcs[t].GetCasRefs?
    ensures Inv(Step(s, t), v)
  {
    var h, r := s.pcs[t].head, s.pcs[t].refs;
    assert LocalInv(s, s.pcs[t]);
    if s.refs[h] != r {
      LocalStep(s, v, t, GetLoadHead);
    } else {
      NoOverflow(s, v, h);
      CasRefsBlock(s, v, t, Step(s, t), h);
      CounterStep(s, v, t, h, Step(s, t), v, GetLoadNext(h));
    }
  }

  lemma CasHeadBlock(s: State, v: View, t: nat, s': State, v': View, h: Node, n: Ptr)
    requires t < |s.pcs| && h in s.refs && BlockInv(s, v, h)
    requires s.pcs[t] == GetCasHead(h, n) && s' == At(s, t, GetDropTwo(h)).(head := n)
    requires v == v'.(list := [h] + v'.list)
    ensures BlockInv(s', v', h)
  {
    TotalsAfter(s.pcs, t, GetDropTwo(h), h);
    ReaddIsCustody(s.pcs, h);
  }

  lemma CasHeadStep(s: State, v: View, t: nat) returns (v': View)
    requires Inv(s, v) && Enabled(s, Advance(t)) && s.pcs[t].GetCasHead?
    ensures Inv(Step(s, t), v')
    ensures s.head == Some(s.pcs[t].head) ==> v.list != [] && v' == v.(list := v.list[1..])
  {
    var h, n := s.pcs[t].head, s.pcs[t].next;
    assert LocalInv(s, s.pcs[t]);
    if s.head != Some(h) {
      v' := v;
      ChainKnown(s.head, s.next, v.list);
      LocalStep(s, v, t, GetDropRef(h, s.head));
    } else {
      v' := v.(list := v.list[1..]);
      assert v.list == [h] + v'.list;
      CasHeadBlock(s, v, t, Step(s, t), v', h, n);
      CounterStep(s, v, t, h, Step(s, t), v', GetDropTwo(h));
    }
  }

  lemma DropRefBlock(s: State, v: View, t: nat, s': State, v': View, h: Node)
    requires t < |s.pcs| && h in s.refs && BlockInv(s, v, h) && s.refs[h] < TWO_32
    requires s.pcs[t].GetDropRef? && s.pcs[t].prevHead == h && Enabled(s, Advance(t)) && s' == Step(s, t)
    requires v' == if s.refs[h] == SHOULD_BE_ON_FREELIST + 1 then v.(pending := v.pending - {h}) else v
    requires Live(s, v, h) < SHOULD_BE_ON_FREELIST
    ensures BlockInv(s', v', h)
  {
    TotalsAfter(s.pcs, t, s'.pcs[t], h);
    Exact(s.refs[h], -1);
  }

  lemma DropRefStep(s: State, v: View, t: nat) returns (v': View)
    requires Inv(s, v) && Enabled(s, Advance(t)) && s.pcs[t].GetDropRef?
    ensures Inv(Step(s, t), v')
  {
    var h := s.pcs[t].prevHead;
    var s' := Step(s, t);
    assert LocalInv(s, s.pcs[t]);
    NoOverflow(s, v, h);
    v' := if s.refs[h] == SHOULD_BE_ON_FREELIST + 1 then v.(pending := v.pending - {h}) else v;
    DropRefBlock(s, v, t, s', v', h);
    CounterStep(s, v, t, h, s', v', s'.pcs[t]);
  }

  lemma DropTwoBlock(s: State, v: View, t: nat, s': State, h: Node)
    requires t < |s.pcs| && h in s.refs && BlockInv(s, v, h) && s.refs[h] < TWO_32
    requires s.pcs[t] == GetDropTwo(h)
    requires s' == At(s, t, Idle).(refs := s.refs[h := Add32(s.refs[h], -2)], owned := s.owned + multiset{h})
    ensures BlockInv(s', v, h)
  {
    TotalsAfter(s.pcs, t, Idle, h);
    Exact(s.refs[h], -2);
  }

  lemma DropTwoStep(s: State, v: View, t: nat)
    requires Inv(s, v) && Enabled(s, Advance(t)) && s.pcs[t].GetDropTwo?
    ensures Inv(Step(s, t), v)
  {
    var h := s.pcs[t].head;
    assert LocalInv(s, s.pcs[t]);
    NoOverflow(s, v, h);
    DropTwoBlock(s, v, t, Step(s, t), h);
    CounterStep(s, v, t, h, Step(s, t), v, Idle);
  }

  lemma AddFlagBlock(s: State, v: View, t: nat, s': State, v': View, n: Node)
    requires t < |s.pcs| && n in s.refs && BlockInv(s, v, n) && s.pcs[t] == AddFlag(n)
    requires Live(s, v, n) < SHOULD_BE_ON_FREELIST
    requires Enabled(s, Advance(t)) && s' == Step(s, t)
    requires v' == if s.refs[n] == 0 then v else v.(pending := v.pending + {n})
    ensures BlockInv(s', v', n)
  {
    TotalsAfter(s.pcs, t, s'.pcs[t], n);
    ReaddIsCustody(s'.pcs, n);
    ReaddIsCustody(s.pcs[t := Idle], n);
    TotalsAfter(s.pcs, t, Idle, n);
    assert s.refs[n] == Total(Ref, s.pcs, n);
    Exact(s.refs[n], SHOULD_BE_ON_FREELIST);
  }

  lemma AddFlagStep(s: State, v: View, t: nat) returns (v': View)
    requires Inv(s, v) && Enabled(s, Advance(t)) && s.pcs[t].AddFlag?
    ensures Inv(Step(s, t), v')
  {
    var n := s.pcs[t].node;
    var s' := Step(s, t);
    assert LocalInv(s, s.pcs[t]);
    NoOverflow(s, v, n);
    v' := if s.refs[n] == 0 then v else v.(pending := v.pending + {n});
    AddFlagBlock(s, v, t, s', v', n);
    CounterStep(s, v, t, n, s', v', s'.pcs[t]);
  }

  lemma StoreRefsBlock(s: State, v: View, t: nat, s': State, n: Node)
    requires t < |s.pcs| && n in s.refs && BlockInv(s, v, n)
    requires s.pcs[t].ReaddStoreRefs? && s.pcs[t].node == n
    requires Enabled(s, Advance(t)) && s' == Step(s, t)
    ensures BlockInv(s', v, n)
  {
    TotalsAfter(s.pcs, t, s'.pcs[t], n);
    ReaddIsCustody(s.pcs, n);
  }

  lemma ReaddStoreRefsStep(s: State, v: View, t: nat)
    requires Inv(s, v) && Enabled(s, Advance(t)) && s.pcs[t].ReaddStoreRefs?
    ensures Inv(Step(s, t), v)
  {
    var n := s.pcs[t].node;
    var s' := Step(s, t);
    assert LocalInv(s, s.pcs[t]);
    StoreRefsBlock(s, v, t, s', n);
    CounterStep(s, v, t, n, s', v, s'.pcs[t]);
  }

  lemma ReaddCasHeadStep(s: State, v: View, t: nat) returns (v': View)
    requires Inv(s, v) && Enabled(s, Advance(t)) && s.pcs[t].ReaddCasHead?
    ensures Inv(Step(s, t), v')
    ensures s.head == s.pcs[t].seen ==> v' == v.(list := [s.pcs[t].node] + v.list)
  {
    var n := s.pcs[t].node;
    var s' := Step(s, t);
    assert LocalInv(s, s.pcs[t]);
    if s.head != s.pcs[t].seen {
      v' := v;
      ChainKnown(s.head, s.next, v.list);
      LocalStep(s, v, t, s'.pcs[t]);
    } else {
      v' := v.(list := [n] + v.list);
      assert v'.list[1..] == v.list;
      TotalsAfter(s.pcs, t, s'.pcs[t], n);
      assert BlockInv(s, v, n);
      CounterStep(s, v, t, n, s', v', s'.pcs[t]);
    }
  }

  lemma ResumeLocal(s: State, ret: Return)
    requires KnownReturn(s, ret)
    ensures LocalInv(s, Resume(ret)) && Subject(Resume(ret)) == None
  {
  }

  lemma GiveUpBlock(s: State, v: View, t: nat, s': State, v': View, n: Node)
    requires t < |s.pcs| && n in s.refs && BlockInv(s, v, n)
    requires s.pcs[t].ReaddGiveUp? && s.pcs[t].node == n
    requires Live(s, v, n) < SHOULD_BE_ON_FREELIST
    requires Enabled(s, Advance(t)) && s' == Step(s, t)
    requires v' == if s.refs[n] == 1 then v else v.(pending := v.pending + {n})
    ensures BlockInv(s', v', n)
  {
    TotalsAfter(s.pcs, t, s'.pcs[t], n);
    ReaddIsCustody(s'.pcs, n);
    ReaddIsCustody(s.pcs[t := Idle], n);
    TotalsAfter(s.pcs, t, Idle, n);
    assert s.refs[n] == Total(Ref, s.pcs, n);
    Exact(s.refs[n], SHOULD_BE_ON_FREELIST - 1);
  }

  lemma ReaddGiveUpStep(s: State, v: View, t: nat) returns (v': View)
    requires Inv(s, v) && Enabled(s, Advance(t)) && s.pcs[t].ReaddGiveUp?
    ensures Inv(Step(s, t), v')
  {
    var ReaddGiveUp(n, h, ret) := s.pcs[t];
    var pc := if s.refs[n] == 1 then ReaddStoreNext(n, h, ret) else Resume(ret);
    var s' := At(s, t, pc).(refs := s.refs[n := Add32(s.refs[n], SHOULD_BE_ON_FREELIST - 1)]);
    assert LocalInv(s, s.pcs[t]);
    ResumeLocal(s, ret);
    NoOverflow(s, v, n);
    if s.refs[n] == 1 {
      v' := v;
      GiveUpBlock(s, v, t, s', v, n);
      CounterStep(s, v, t, n, s', v, pc);
    } else {
      v' := v.(pending := v.pending + {n});
      GiveUpBlock(s, v, t, s', v', n);
      CounterStep(s, v, t, n, s', v', pc);
    }
  }

  lemma StoreNextLocal(s: State, t: nat, u: nat, s': State, n: Node, p: Ptr)
    requires t < |s.pcs| && u < |s.pcs| && u != t
    requires LocalInv(s, s.pcs[u]) && s'.refs == s.refs && s'.next == s.next[n := p]
    requires Amount(Custody, s.pcs[t], n) == 1
    requires Total(Custody, s.pcs, n) == 1 && Total(Ref, s.pcs, n) == 0
    ensures LocalInv(s', s.pcs[u])
  {
    TotalAtLeast(Ref, s.pcs, u, n);
    TotalOfTwo(Custody, s.pcs, t, u, n);
  }

  /** Only the one thread re-adding a block writes its link, and nobody holds a reference meanwhile. */
  lemma ReaddStoreNextStep(s: State, v: View, t: nat)
    requires Inv(s, v) && Enabled(s, Advance(t)) && s.pcs[t].ReaddStoreNext?
    ensures Inv(Step(s, t), v)
  {
    var n := s.pcs[t].node;
    var s' := Step(s, t);
    assert LocalInv(s, s.pcs[t]);
    TotalsAfter(s.pcs, t, s'.pcs[t], n);
    assert BlockInv(s, v, n);
    assert n !in v.list by {
      assert multiset(v.list)[n] == 0;
    }
    ChainFrame(s.head, s.next, v.list, n, s.pcs[t].seen);
    forall u | 0 <= u < |s'.pcs| ensures LocalInv(s', s'.pcs[u]) {
      if u != t {
        StoreNextLocal(s, t, u, s', n, s.pcs[t].seen);
      }
    }
    forall m | m in s'.refs ensures BlockInv(s', v, m) {
      if m != n {
        OnlySubject(s.pcs[t], m);
        OnlySubject(s'.pcs[t], m);
      }
      SameBlock(s, v, t, s'.pcs[t], m);
    }
  }

  lemma StepInv(s: State, v: View, t: nat) returns (v': View)
    requires Inv(s, v) && Enabled(s, Advance(t))
    ensures Inv(Step(s, t), v')
  {
    assert LocalInv(s, s.pcs[t]);
    ChainKnown(s.head, s.next, v.list);
    v' := v;
    match s.pcs[t]
    case GetLoadHead => LocalStep(s, v, t, GetLoop(s.head));
    case GetLoadRefs(h) => LocalStep(s, v, t, Step(s, t).pcs[t]);
    case GetCasRefs(_, _) => CasRefsStep(s, v, t);
    case GetLoadNext(h) => LocalStep(s, v, t, GetCasHead(h, s.next[h]));
    case GetCasHead(_, _) => v' := CasHeadStep(s, v, t);
    case GetDropRef(_, _) => v' := DropRefStep(s, v, t);
    case GetDropTwo(_) => DropTwoStep(s, v, t);
    case AddFlag(_) => v' := AddFlagStep(s, v, t);
    case ReaddLoadHead(n, ret) => LocalStep(s, v, t, ReaddStoreNext(n, s.head, ret));
    case ReaddStoreNext(_, _, _) => ReaddStoreNextStep(s, v, t);
    case ReaddStoreRefs(_, _, _) => ReaddStoreRefsStep(s, v, t);
    case ReaddCasHead(_, _, _) => v' := ReaddCasHeadStep(s, v, t);
    case ReaddGiveUp(_, _, _) => v' := ReaddGiveUpStep(s, v, t);
  }

  lemma CreateInv(s: State, v: View, n: Node)
    requires Inv(s, v) && Enabled(s, Create(n))
    ensures Inv(Apply(s, Create(n)), v)
  {
    var s' := Apply(s, Create(n));
    assert n !in v.list && n !in v.pending && n !in s.owned;
    ChainFrame(s.head, s.next, v.list, n, None);
    NobodyKnows(s, s.pcs, n);
    forall u | 0 <= u < |s.pcs| ensures LocalInv(s', s'.pcs[u]) {
      assert LocalInv(s, s.pcs[u]);
    }
    forall m | m in s'.refs ensures BlockInv(s', v, m) {
      if m != n {
        assert BlockInv(s, v, m);
      }
    }
  }

  /** No thread contributes to a block that does not exist yet. */
  lemma {:induction false} NobodyKnows(s: State, pcs: seq<Pc>, n: Node)
    requires n !in s.refs && forall u | 0 <= u < |pcs| :: LocalInv(s, pcs[u])
    ensures Total(Custody, pcs, n) == Total(Readd, pcs, n) == Total(Ref, pcs, n) == 0
  {
    if pcs != [] {
      assert LocalInv(s, pcs[0]);
      NobodyKnows(s, pcs[1..], n);
    }
  }

  lemma BeginAddInv(s: State, v: View, t: nat, n: Node)
    requires Inv(s, v) && Enabled(s, BeginAdd(t, n))
    ensures Inv(Apply(s, BeginAdd(t, n)), v)
  {
    var s' := Apply(s, BeginAdd(t, n));
    TotalsAfter(s.pcs, t, AddFlag(n), n);
    assert BlockInv(s, v, n);
    CounterStep(s, v, t, n, s', v, AddFlag(n));
  }

  lemma ApplyInv(s: State, v: View, a: Action) returns (v': View)
    requires Inv(s, v) && Enabled(s, a)
    ensures Inv(Apply(s, a), v')
  {
    v' := v;
    match a
    case Create(n) => CreateInv(s, v, n);
    case BeginAdd(t, n) => BeginAddInv(s, v, t, n);
    case BeginGet(t) => LocalStep(s, v, t, GetLoadHead);
    case Advance(t) => v' := StepInv(s, v, t);
  }

  lemma {:induction false} RunInv(s: State, v: View, actions: seq<Action>) returns (v': View)
    requires Inv(s, v) && Runs(s, actions)
    ensures Inv(After(s, actions), v')
    decreases |actions|
  {
    if actions == [] {
      v' := v;
    } else {
      var w := ApplyInv(s, v, actions[0]);
      v' := RunInv(Apply(s, actions[0]), w, actions[1..]);
    }
  }

  ghost predicate Reachable(s: State) {
    exists threads: nat, actions ::
      threads <= MAX_THREADS && Runs(Init(threads), actions) && s == After(Init(threads), actions)
  }

  lemma ReachableInv(s: State) returns (v: View)
    requires Reachable(s)
    ensures Inv(s, v)
  {
    var threads: nat, actions :|
      threads <= MAX_THREADS && Runs(Init(threads), actions) && s == After(Init(threads), actions);
    InitInv(threads);
    v := RunInv(Init(threads), View([], {}), actions);
  }

  // ---- Main results

  /**
    Block n is in exactly one place: with one client, linked once, flagged and waiting for its last reference
    to be dropped, or in the hands of exactly one thread. Its low 31 bits count the list's reference and those
    of the threads, and its flag is set exactly while it waits or is being re-added.
   */
  ghost predicate InOnePlace(s: State, v: View, n: Node)
    requires n in s.refs
  {
    && Places(s, v, n) == 1
    && s.refs[n] % SHOULD_BE_ON_FREELIST == multiset(v.list)[n] + Total(Ref, s.pcs, n)
    && (s.refs[n] >= SHOULD_BE_ON_FREELIST <==> n in v.pending || Total(Readd, s.pcs, n) == 1)
    && (n in v.pending ==> Total(Ref, s.pcs, n) > 0)
  }

  lemma BlockInOnePlace(s: State, v: View, n: Node)
    requires Inv(s, v) && n in s.refs
    ensures InOnePlace(s, v, n)
  {
    NoOverflow(s, v, n);
    var flag := One(n in v.pending) + Total(Readd, s.pcs, n);
    SplitCount(s.refs[n], flag, Live(s, v, n));
  }

  /** The flag and the count share one word. */
  lemma SplitCount(word: nat, flag: nat, count: nat)
    requires word == SHOULD_BE_ON_FREELIST * flag + count && flag <= 1 && count < SHOULD_BE_ON_FREELIST
    ensures word % SHOULD_BE_ON_FREELIST == count && (word >= SHOULD_BE_ON_FREELIST <==> flag == 1)
  {
  }

  /** In every reachable state every block is in exactly one place. */
  lemma EveryBlockInOnePlace(s: State) returns (v: View)
    requires Reachable(s)
    ensures Chain(s.head, s.next, v.list)
    ensures forall n | n in s.refs :: InOnePlace(s, v, n)
  {
    v := ReachableInv(s);
    forall n | n in s.refs ensures InOnePlace(s, v, n) {
      BlockInOnePlace(s, v, n);
    }
  }

  /** A block that `try_get` is about to return has no other owner, is not linked, and no other thread is after it. */
  lemma NeverTwoOwners(s: State, t: nat)
    requires Reachable(s) && t < |s.pcs| && s.pcs[t].GetDropTwo?
    ensures Enabled(s, Advance(t))
    ensures s.pcs[t].head !in s.owned && Step(s, t).owned[s.pcs[t].head] == 1
    ensures forall list | Chain(s.head, s.next, list) :: s.pcs[t].head !in list
    ensures forall u | 0 <= u < |s.pcs| && u != t :: Amount(Custody, s.pcs[u], s.pcs[t].head) == 0
    ensures s.refs[s.pcs[t].head] < SHOULD_BE_ON_FREELIST
  {
    var v := ReachableInv(s);
    var h := s.pcs[t].head;
    assert LocalInv(s, s.pcs[t]);
    assert BlockInv(s, v, h);
    TotalAtLeast(Custody, s.pcs, t, h);
    forall list | Chain(s.head, s.next, list) ensures h !in list {
      ChainUnique(s.head, s.next, list, v.list);
      assert multiset(v.list)[h] == 0;
    }
    forall u | 0 <= u < |s.pcs| && u != t ensures Amount(Custody, s.pcs[u], h) == 0 {
      TotalOfTwo(Custody, s.pcs, t, u, h);
    }
    NoOverflow(s, v, h);
    ReaddIsCustody(s.pcs[t := Idle], h);
    TotalsAfter(s.pcs, t, Idle, h);
  }

  /** When the compare-and-swap of the head succeeds, the link read earlier is still the head's successor. */
  lemma SwapsInTrueSuccessor(s: State, t: nat) returns (list: seq<Node>)
    requires Reachable(s) && t < |s.pcs| && s.pcs[t].GetCasHead? && s.head == Some(s.pcs[t].head)
    ensures Chain(s.head, s.next, list) && list != [] && list[0] == s.pcs[t].head
    ensures Step(s, t).next == s.next && Step(s, t).head == s.pcs[t].next
    ensures Chain(Step(s, t).head, s.next, list[1..])
  {
    var v := ReachableInv(s);
    assert LocalInv(s, s.pcs[t]);
    list := v.list;
  }

  /** No thread ever dereferences a block that does not exist. */
  lemma NeverStuck(s: State, t: nat)
    requires Reachable(s) && t < |s.pcs| && !s.pcs[t].Idle?
    ensures Enabled(s, Advance(t))
  {
    var v := ReachableInv(s);
    assert LocalInv(s, s.pcs[t]);
  }

  /** With no call in flight, every block is with one client or linked once, and its counter says which. */
  lemma QuiescentPartition(s: State) returns (list: seq<Node>)
    requires Reachable(s) && forall t | 0 <= t < |s.pcs| :: s.pcs[t].Idle?
    ensures Chain(s.head, s.next, list)
    ensures forall n | n in s.refs :: s.owned[n] + multiset(list)[n] == 1 && s.refs[n] == multiset(list)[n]
  {
    var v := ReachableInv(s);
    list := v.list;
    forall n | n in s.refs ensures s.owned[n] + multiset(list)[n] == 1 && s.refs[n] == multiset(list)[n] {
      assert BlockInv(s, v, n);
      TotalOfIdle(Custody, s.pcs, n);
      TotalOfIdle(Readd, s.pcs, n);
      TotalOfIdle(Ref, s.pcs, n);
    }
  }
}
