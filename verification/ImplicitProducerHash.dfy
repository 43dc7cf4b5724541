/**
  The table from thread ids to implicit producers (common/concurrentqueue.h, `get_or_add_implicit_producer`):
  open addressing with linear probing, growing by chaining a larger table in front of the older ones, with
  entries copied lazily into the newest table. Thread-exit support is off and allocation succeeds.

  Any number of threads call it; each atomic operation is one step. Thread t has the nonzero id t + 1.
 */
module ImplicitProducerHash {
  import opened Arithmetic
  import opened Wrappers

  type Producer = nat

  /** Key 0 is `invalid_thread_id`. */
  datatype Entry = Entry(key: nat, value: Option<Producer>)

  datatype Table = Table(prev: Option<nat>, entries: seq<Entry>)

  datatype Pc =
    | Idle
    | Start
    | Search(main: nat, cur: nat, probe: nat)
    | CountUp(main: nat)
    | TryResize(main: nat, rank: nat)
    | LoadMain(rank: nat)
    | Grow(main: nat, rank: nat)
    | Unlock(main: nat, rank: nat)
    | CheckRoom(main: nat, rank: nat)
    | Reload(rank: nat)
    | NewProducer(main: nat, rank: nat)
    // Insertion of a new entry and the lazy copy run the same loop.
    | Place(main: nat, producer: Producer, probe: nat)
    | PlaceCas(main: nat, producer: Producer, probe: nat)
    | PlaceStore(main: nat, producer: Producer, slot: nat)

  /** For stating properties: each thread's count at its first call, its producer, and the results it got. */
  datatype History = History(rank: seq<nat>, producer: seq<Option<Producer>>, returned: seq<seq<Producer>>)

  datatype State = State(
    hashes: seq<nat>,
    tables: seq<Table>,
    main: nat,
    count: nat,
    locked: bool,
    created: nat,
    pcs: seq<Pc>,
    h: History)

  datatype Action = Call(thread: nat) | Advance(thread: nat)

  function Fresh(capacity: nat, prev: Option<nat>): Table {
    Table(prev, seq(capacity, _ => Entry(0, None)))
  }

  function Init(hashes: seq<nat>, capacity: nat): State {
    State(hashes, [Fresh(capacity, None)], 0, 0, false, 0, seq(|hashes|, _ => Idle),
          History(seq(|hashes|, _ => 0), seq(|hashes|, _ => None), seq(|hashes|, _ => [])))
  }

  predicate Shaped(s: State) {
    && |s.hashes| == |s.pcs| == |s.h.rank| == |s.h.producer| == |s.h.returned|
    && s.main < |s.tables|
    && forall k | 0 <= k < |s.tables| :: |s.tables[k].entries| > 0
  }

  function Capacity(s: State, k: nat): nat
    requires k < |s.tables|
  {
    |s.tables[k].entries|
  }

  /** Three quarters of the capacity, as the code rounds it. */
  function Room(capacity: nat): nat {
    capacity / 2 + capacity / 4
  }

  /** The slot looked at on the j-th probe. */
  function Slot(hash: nat, capacity: nat, j: nat): (i: nat)
    requires capacity > 0
    ensures i < capacity
  {
    (hash + j) % capacity
  }

  function KeyAt(s: State, k: nat, i: nat): nat
    requires k < |s.tables| && i < |s.tables[k].entries|
  {
    s.tables[k].entries[i].key
  }

  predicate Enabled(s: State, a: Action) {
    && Shaped(s)
    && a.thread < |s.pcs|
    && match a
       case Call(t) => s.pcs[t].Idle?
       case Advance(t) => !s.pcs[t].Idle? && InBounds(s, s.pcs[t])
  }

  predicate InBounds(s: State, pc: Pc) {
    match pc
    case Idle => true
    case Start => true
    case Search(_, cur, _) => cur < |s.tables|
    case CountUp(_) => true
    case TryResize(m, _) => m < |s.tables|
    case LoadMain(_) => true
    case Grow(m, _) => m < |s.tables|
    case Unlock(_, _) => true
    case CheckRoom(m, _) => m < |s.tables|
    case Reload(_) => true
    case NewProducer(_, _) => true
    case Place(m, _, _) => m < |s.tables|
    case PlaceCas(m, _, _) => m < |s.tables|
    case PlaceStore(m, _, i) => m < |s.tables| && i < |s.tables[m].entries|
  }

  function At(s: State, t: nat, pc: Pc): State
    requires t < |s.pcs|
  {
    s.(pcs := s.pcs[t := pc])
  }

  /** The call returns producer p to thread t. */
  function Done(s: State, t: nat, p: Producer): State
    requires t < |s.pcs| && t < |s.h.returned|
  {
    At(s, t, Idle).(h := s.h.(returned := s.h.returned[t := s.h.returned[t] + [p]]))
  }

  function SetEntry(s: State, k: nat, i: nat, e: Entry): State
    requires k < |s.tables| && i < |s.tables[k].entries|
  {
    s.(tables := s.tables[k := s.tables[k].(entries := s.tables[k].entries[i := e])])
  }

  /** The doubling loop that picks the new capacity. */
  function GrowTo(capacity: nat, rank: nat): (c: nat)
    requires capacity > 0
    ensures c >= capacity && rank < c / 2
    decreases 2 * rank + 2 - capacity
  {
    if rank >= capacity / 2 then GrowTo(2 * capacity, rank) else capacity
  }

  function Apply(s: State, a: Action): State
    requires Enabled(s, a)
  {
    match a
    case Call(t) => At(s, t, Start)
    case Advance(t) => Step(s, t)
  }

  function Step(s: State, t: nat): State
    requires Enabled(s, Advance(t))
  {
    match s.pcs[t]
    case Start => At(s, t, Search(s.main, s.main, 0))
    case Search(m, cur, j) =>
      var e := s.tables[cur].entries[Slot(s.hashes[t], Capacity(s, cur), j)];
      if e.key == t + 1 then
        var v := if e.value.Some? then e.value.value else 0;
        if cur == m then Done(s, t, v) else At(s, t, Place(m, v, 0))
      else if e.key == 0 then
        match s.tables[cur].prev
        case Some(p) => At(s, t, Search(m, p, 0))
        case None => At(s, t, CountUp(m))
      else
        At(s, t, Search(m, cur, j + 1))
    case CountUp(m) =>
      At(s, t, TryResize(m, s.count + 1)).(count := s.count + 1, h := s.h.(rank := s.h.rank[t := s.count + 1]))
    case TryResize(m, r) =>
      if r >= Capacity(s, m) / 2 && !s.locked then At(s, t, LoadMain(r)).(locked := true)
      else At(s, t, CheckRoom(m, r))
    case LoadMain(r) =>
      At(s, t, if r >= Capacity(s, s.main) / 2 then Grow(s.main, r) else Unlock(s.main, r))
    case Grow(m, r) =>
      var table := Fresh(GrowTo(2 * Capacity(s, m), r), Some(m));
      At(s, t, Unlock(|s.tables|, r)).(tables := s.tables + [table], main := |s.tables|)
    case Unlock(m, r) => At(s, t, CheckRoom(m, r)).(locked := false)
    case CheckRoom(m, r) => At(s, t, if r < Room(Capacity(s, m)) then NewProducer(m, r) else Reload(r))
    case Reload(r) => At(s, t, TryResize(s.main, r))
    case NewProducer(m, _) =>
      At(s, t, Place(m, s.created, 0))
      .(created := s.created + 1, h := s.h.(producer := s.h.producer[t := Some(s.created)]))
    case Place(m, p, j) =>
      At(s, t, if KeyAt(s, m, Slot(s.hashes[t], Capacity(s, m), j)) == 0 then PlaceCas(m, p, j) else Place(m, p, j + 1))
    case PlaceCas(m, p, j) =>
      var i := Slot(s.hashes[t], Capacity(s, m), j);
      if KeyAt(s, m, i) == 0 then At(SetEntry(s, m, i, s.tables[m].entries[i].(key := t + 1)), t, PlaceStore(m, p, i))
      else At(s, t, Place(m, p, j + 1))
    case PlaceStore(m, p, i) =>
      Done(SetEntry(s, m, i, s.tables[m].entries[i].(value := Some(p))), t, p)
  }

  predicate Runs(s: State, actions: seq<Action>)
    decreases |actions|
  {
    actions == [] || (Enabled(s, actions[0]) && Runs(Apply(s, actions[0]), actions[1..]))
  }

  function After(s: State, actions: seq<Action>): State
    requires Runs(s, actions)
    decreases |actions|
  {
    if actions == [] then s else After(Apply(s, actions[0]), actions[1..])
  }

  // ---- The invariant

  predicate Absent(entries: seq<Entry>, t: nat) {
    forall i | 0 <= i < |entries| :: entries[i].key != t + 1
  }

  predicate AbsentEverywhere(tables: seq<Table>, t: nat) {
    forall k | 0 <= k < |tables| :: Absent(tables[k].entries, t)
  }

  /** The first j probes of thread t meet foreign keys only. */
  predicate Passed(hash: nat, entries: seq<Entry>, t: nat, j: nat)
    requires |entries| > 0
  {
    forall i | 0 <= i < j :: entries[Slot(hash, |entries|, i)].key !in {0, t + 1}
  }

  /** Linear probing finds thread t: no empty slot comes before its own. */
  ghost predicate Findable(hash: nat, entries: seq<Entry>, t: nat)
    requires |entries| > 0
  {
    exists j :: 0 <= j < |entries| && Passed(hash, entries, t, j) && entries[Slot(hash, |entries|, j)].key == t + 1
  }

  /** Thread t never finished inserting. */
  predicate Unknown(s: State, t: nat)
    requires Shaped(s) && t < |s.pcs|
  {
    s.h.rank[t] == 0 && s.h.producer[t] == None && AbsentEverywhere(s.tables, t) && s.h.returned[t] == []
  }

  predicate Registered(s: State, t: nat)
    requires Shaped(s) && t < |s.pcs|
  {
    s.h.rank[t] > 0 && s.h.producer[t].Some? && !AbsentEverywhere(s.tables, t)
  }

  /** Thread t has its count but no entry yet. */
  predicate Counted(s: State, t: nat, r: nat)
    requires Shaped(s) && t < |s.pcs|
  {
    r > 0 && s.h.rank[t] == r && s.h.producer[t] == None && AbsentEverywhere(s.tables, t) && s.h.returned[t] == []
  }

  /** Thread t is about to enter itself into table m, which has room for it. */
  predicate Placing(s: State, t: nat, m: nat, p: Producer, j: nat)
    requires Shaped(s) && t < |s.pcs|
  {
    && m < |s.tables| && j < Capacity(s, m)
    && 0 < s.h.rank[t] < Room(Capacity(s, m))
    && s.h.producer[t] == Some(p)
    && Absent(s.tables[m].entries, t)
    && Passed(s.hashes[t], s.tables[m].entries, t, j)
  }

  predicate LocalInv(s: State, t: nat)
    requires Shaped(s) && t < |s.pcs|
  {
    match s.pcs[t]
    case Idle => Unknown(s, t) || Registered(s, t)
    case Start => Unknown(s, t) || Registered(s, t)
    case Search(m, cur, j) =>
      && (Unknown(s, t) || Registered(s, t))
      && cur <= m < |s.tables| && j < Capacity(s, cur)
      && (forall k | cur < k < |s.tables| :: Absent(s.tables[k].entries, t))
      && Passed(s.hashes[t], s.tables[cur].entries, t, j)
    case CountUp(m) => m < |s.tables| && Unknown(s, t)
    case TryResize(m, r) => m < |s.tables| && Counted(s, t, r)
    case LoadMain(r) => Counted(s, t, r)
    case Grow(m, r) => m == s.main && Counted(s, t, r)
    case Unlock(m, r) => m < |s.tables| && Counted(s, t, r)
    case CheckRoom(m, r) => m < |s.tables| && Counted(s, t, r)
    case Reload(r) => Counted(s, t, r)
    case NewProducer(m, r) => m < |s.tables| && Counted(s, t, r) && r < Room(Capacity(s, m))
    case Place(m, p, j) => Placing(s, t, m, p, j)
    case PlaceCas(m, p, j) => Placing(s, t, m, p, j)
    case PlaceStore(m, p, i) =>
      && m < |s.tables| && i < Capacity(s, m) && KeyAt(s, m, i) == t + 1
      && s.h.rank[t] > 0 && s.h.producer[t] == Some(p)
  }

  ghost predicate EntryInv(s: State, k: nat, i: nat)
    requires Shaped(s) && k < |s.tables| && i < Capacity(s, k)
  {
    var e := s.tables[k].entries[i];
    e.key > 0 ==>
      var t := e.key - 1;
      && t < |s.pcs|
      && 0 < s.h.rank[t] < Room(Capacity(s, k))
      && s.h.producer[t].Some?
      && (e.value == s.h.producer[t] || s.pcs[t] == PlaceStore(k, s.h.producer[t].value, i))
      && Findable(s.hashes[t], s.tables[k].entries, t)
  }

  predicate DistinctKeys(entries: seq<Entry>) {
    forall i, j | 0 <= i < j < |entries| :: entries[i].key == entries[j].key ==> entries[i].key == 0
  }

  ghost predicate TableInv(s: State, k: nat)
    requires Shaped(s) && k < |s.tables|
  {
    && s.tables[k].prev == (if k == 0 then None else Some(k - 1))
    && (k > 0 ==> Capacity(s, k - 1) < Capacity(s, k))
    && DistinctKeys(s.tables[k].entries)
    && forall i | 0 <= i < Capacity(s, k) :: EntryInv(s, k, i)
  }

  predicate Critical(pc: Pc) {
    pc.LoadMain? || pc.Grow? || pc.Unlock?
  }

  predicate Locking(s: State) {
    && (forall t | 0 <= t < |s.pcs| && Critical(s.pcs[t]) :: s.locked)
    && (forall t, u | 0 <= t < u < |s.pcs| && Critical(s.pcs[t]) :: !Critical(s.pcs[u]))
  }

  predicate Identities(s: State)
    requires Shaped(s)
  {
    && (forall t | 0 <= t < |s.pcs| :: s.h.rank[t] <= s.count)
    && (forall t, u | 0 <= t < u < |s.pcs| && s.h.rank[t] > 0 :: s.h.rank[t] != s.h.rank[u])
    && (forall t | 0 <= t < |s.pcs| && s.h.producer[t].Some? :: s.h.producer[t].value < s.created)
    && (forall t, u | 0 <= t < u < |s.pcs| && s.h.producer[t].Some? :: s.h.producer[t] != s.h.producer[u])
    && (forall t | 0 <= t < |s.pcs| :: forall p | p in s.h.returned[t] :: s.h.producer[t] == Some(p))
  }

  ghost predicate Inv(s: State) {
    && Shaped(s)
    && s.main == |s.tables| - 1
    && Locking(s)
    && Identities(s)
    && (forall k | 0 <= k < |s.tables| :: TableInv(s, k))
    && (forall t | 0 <= t < |s.pcs| :: LocalInv(s, t))
  }

  lemma InitInv(hashes: seq<nat>, capacity: nat)
    requires capacity > 0
    ensures Inv(Init(hashes, capacity))
  {
    var s := Init(hashes, capacity);
    forall t | 0 <= t < |s.pcs| ensures LocalInv(s, t) {
      assert Unknown(s, t);
    }
  }

  // ---- Counting: a table never fills up

  function UsedSlots(entries: seq<Entry>): set<nat> {
    set i: nat | i < |entries| && entries[i].key > 0
  }

  lemma {:induction false} NumbersBelow(xs: set<nat>, n: nat)
    requires forall x | x in xs :: 0 < x < n
    ensures |xs| == 0 || |xs| < n
  {
    if n <= 1 {
      assert xs == {};
    } else {
      NumbersBelow(xs - {n - 1}, n - 1);
      assert |xs - {n - 1}| >= |xs| - 1;
      if xs - {n - 1} == {} {
        assert xs <= {n - 1};
      }
    }
  }

  /** Slots with pairwise different ranks are no more numerous than the ranks. */
  lemma {:induction false} RanksOf(slots: set<nat>, rank: map<nat, nat>) returns (ranks: set<nat>)
    requires slots <= rank.Keys
    requires forall i, j | i in slots && j in slots && i != j :: rank[i] != rank[j]
    ensures ranks == set i | i in slots :: rank[i]
    ensures |ranks| == |slots|
  {
    if slots == {} {
      ranks := {};
    } else {
      var i :| i in slots;
      var rest := RanksOf(slots - {i}, rank);
      ranks := rest + {rank[i]};
      assert rank[i] !in rest;
      assert slots == (slots - {i}) + {i};
    }
  }

  /** The count of the thread whose key is in slot i of table k. */
  function RankAt(s: State, k: nat, i: nat): nat
    requires Shaped(s) && k < |s.tables| && i < Capacity(s, k)
  {
    var key := s.tables[k].entries[i].key;
    if 0 < key <= |s.pcs| then s.h.rank[key - 1] else 0
  }

  lemma DistinctRanks(s: State, k: nat, i: nat, j: nat)
    requires Shaped(s) && k < |s.tables| && i < j < Capacity(s, k)
    requires Identities(s) && DistinctKeys(s.tables[k].entries) && EntryInv(s, k, i) && EntryInv(s, k, j)
    requires KeyAt(s, k, i) > 0 && KeyAt(s, k, j) > 0
    ensures RankAt(s, k, i) != RankAt(s, k, j)
  {
    var t, u := KeyAt(s, k, i) - 1, KeyAt(s, k, j) - 1;
    assert t != u;
    if t < u {
      assert s.h.rank[t] != s.h.rank[u];
    } else {
      assert s.h.rank[u] != s.h.rank[t];
    }
  }

  lemma RankFits(s: State, k: nat, i: nat)
    requires Shaped(s) && k < |s.tables| && i < Capacity(s, k) && EntryInv(s, k, i) && KeyAt(s, k, i) > 0
    ensures 0 < RankAt(s, k, i) < Room(Capacity(s, k))
  {
  }

  /** Every key in a table has its own count below three quarters of the capacity, so the table is never full. */
  lemma TableHasRoom(s: State, k: nat)
    requires Inv(s) && k < |s.tables|
    ensures UsedSlots(s.tables[k].entries) == {} || |UsedSlots(s.tables[k].entries)| < Room(Capacity(s, k))
  {
    assert TableInv(s, k);
    var used := UsedSlots(s.tables[k].entries);
    var rank: map<nat, nat> := map i: nat | i in used :: RankAt(s, k, i);
    forall i, j | i in used && j in used && i != j ensures rank[i] != rank[j] {
      DistinctRanks(s, k, if i < j then i else j, if i < j then j else i);
    }
    var ranks := RanksOf(used, rank);
    forall r | r in ranks ensures 0 < r < Room(Capacity(s, k)) {
      var i :| i in used && r == rank[i];
      RankFits(s, k, i);
    }
    NumbersBelow(ranks, Room(Capacity(s, k)));
  }

  /** The slots probed first are all different. */
  lemma {:induction false} ProbedSlots(hash: nat, capacity: nat, j: nat) returns (slots: set<nat>)
    requires 0 < capacity && j <= capacity
    ensures slots == set i: nat | i < j :: Slot(hash, capacity, i)
    ensures |slots| == j
    decreases j
  {
    if j == 0 {
      slots := {};
    } else {
      var rest := ProbedSlots(hash, capacity, j - 1);
      slots := rest + {Slot(hash, capacity, j - 1)};
      forall i: nat | i < j - 1 ensures Slot(hash, capacity, i) != Slot(hash, capacity, j - 1) {
        ModDistinct(hash + i, hash + (j - 1), capacity);
      }
    }
  }

  /** Probing over foreign keys stops before three quarters of the table. */
  lemma ProbeBound(s: State, t: nat, k: nat, j: nat)
    requires Inv(s) && t < |s.pcs| && k < |s.tables| && j <= Capacity(s, k)
    requires Passed(s.hashes[t], s.tables[k].entries, t, j)
    ensures j == 0 || j < Room(Capacity(s, k))
  {
    var es := s.tables[k].entries;
    var slots := ProbedSlots(s.hashes[t], |es|, j);
    TableHasRoom(s, k);
    var used := UsedSlots(es);
    forall i | i in slots ensures i in used {
      var p: nat :| p < j && i == Slot(s.hashes[t], |es|, p);
      assert es[Slot(s.hashes[t], |es|, p)].key !in {0, t + 1};
    }
    assert used == slots + (used - slots);
  }

  // ---- Every step keeps the invariant

  /** Only thread t's own fields differ, and the tables are the same. */
  predicate OnlyThread(s: State, s': State, t: nat, pc: Pc) {
    && Shaped(s) && Shaped(s') && t < |s.pcs|
    && s'.hashes == s.hashes && s'.tables == s.tables && s'.main == s.main
    && s'.pcs == s.pcs[t := pc]
    && s'.h.rank == s.h.rank[t := s'.h.rank[t]]
    && s'.h.producer == s.h.producer[t := s'.h.producer[t]]
    && s'.h.returned == s.h.returned[t := s'.h.returned[t]]
  }

  lemma LocalFrame(s: State, s': State, t: nat, pc: Pc, u: nat)
    requires OnlyThread(s, s', t, pc) && u < |s.pcs| && u != t && LocalInv(s, u)
    ensures LocalInv(s', u)
  {
  }

  lemma EntryFrame(s: State, s': State, t: nat, pc: Pc, k: nat, i: nat)
    requires OnlyThread(s, s', t, pc) && !s.pcs[t].PlaceStore?
    requires (s'.h.rank == s.h.rank && s'.h.producer == s.h.producer) || AbsentEverywhere(s.tables, t)
    requires k < |s.tables| && i < Capacity(s, k) && EntryInv(s, k, i)
    ensures EntryInv(s', k, i)
  {
    assert AbsentEverywhere(s.tables, t) ==> Absent(s.tables[k].entries, t);
  }

  /** Steps that leave the tables alone. */
  lemma QuietStep(s: State, s': State, t: nat, pc: Pc)
    requires Inv(s) && OnlyThread(s, s', t, pc) && !s.pcs[t].PlaceStore?
    requires (s'.h.rank == s.h.rank && s'.h.producer == s.h.producer) || AbsentEverywhere(s.tables, t)
    requires Locking(s') && Identities(s') && LocalInv(s', t)
    ensures Inv(s')
  {
    forall u | 0 <= u < |s'.pcs| ensures LocalInv(s', u) {
      if u != t {
        LocalFrame(s, s', t, pc, u);
      }
    }
    forall k | 0 <= k < |s'.tables| ensures TableInv(s', k) {
      assert TableInv(s, k);
      forall i | 0 <= i < Capacity(s', k) ensures EntryInv(s', k, i) {
        EntryFrame(s, s', t, pc, k, i);
      }
    }
  }

  /** A step that moves the program counter and nothing else. */
  lemma MoveStep(s: State, t: nat, pc: Pc)
    requires Inv(s) && t < |s.pcs| && !s.pcs[t].PlaceStore?
    requires Critical(pc) ==> Critical(s.pcs[t])
    requires LocalInv(At(s, t, pc), t)
    ensures Inv(At(s, t, pc))
  {
    QuietStep(s, At(s, t, pc), t, pc);
  }

  /** Reaching an empty slot means the thread is not in this table. */
  lemma EmptySlotMeansAbsent(s: State, t: nat, k: nat, j: nat)
    requires Inv(s) && t < |s.pcs| && k < |s.tables| && j < Capacity(s, k)
    requires Passed(s.hashes[t], s.tables[k].entries, t, j)
    requires KeyAt(s, k, Slot(s.hashes[t], Capacity(s, k), j)) == 0
    ensures Absent(s.tables[k].entries, t)
  {
    assert TableInv(s, k);
    var es := s.tables[k].entries;
    assert !Findable(s.hashes[t], es, t) by {
      assert es[Slot(s.hashes[t], |es|, j)].key == 0;
    }
    forall i | 0 <= i < |es| ensures es[i].key != t + 1 {
      assert EntryInv(s, k, i);
    }
  }

  lemma SearchStep(s: State, t: nat)
    requires Inv(s) && Enabled(s, Advance(t)) && s.pcs[t].Search?
    ensures Inv(Step(s, t))
  {
    var Search(m, cur, j) := s.pcs[t];
    var i := Slot(s.hashes[t], Capacity(s, cur), j);
    assert LocalInv(s, t) && TableInv(s, cur);
    if KeyAt(s, cur, i) == t + 1 {
      FoundStep(s, t, m, cur, j);
    } else if KeyAt(s, cur, i) == 0 {
      SearchOlder(s, t, m, cur, j);
    } else {
      SearchNext(s, t, m, cur, j);
    }
  }

  lemma SearchOlder(s: State, t: nat, m: nat, cur: nat, j: nat)
    requires Inv(s) && Enabled(s, Advance(t)) && s.pcs[t] == Search(m, cur, j)
    requires cur < |s.tables| && KeyAt(s, cur, Slot(s.hashes[t], Capacity(s, cur), j)) == 0
    ensures Inv(Step(s, t))
  {
    assert LocalInv(s, t) && TableInv(s, cur);
    EmptySlotMeansAbsent(s, t, cur, j);
    MoveStep(s, t, if cur == 0 then CountUp(m) else Search(m, cur - 1, 0));
  }

  lemma SearchNext(s: State, t: nat, m: nat, cur: nat, j: nat)
    requires Inv(s) && Enabled(s, Advance(t)) && s.pcs[t] == Search(m, cur, j)
    requires cur < |s.tables| && KeyAt(s, cur, Slot(s.hashes[t], Capacity(s, cur), j)) !in {0, t + 1}
    ensures Inv(Step(s, t))
  {
    assert LocalInv(s, t) && TableInv(s, cur);
    assert Passed(s.hashes[t], s.tables[cur].entries, t, j + 1);
    ProbeBound(s, t, cur, j + 1);
    MoveStep(s, t, Search(m, cur, j + 1));
  }

  /** An entry with the thread's own key carries its producer. */
  lemma FoundOwn(s: State, t: nat, k: nat, i: nat)
    requires Inv(s) && t < |s.pcs| && !s.pcs[t].PlaceStore?
    requires k < |s.tables| && i < Capacity(s, k) && KeyAt(s, k, i) == t + 1
    ensures s.h.producer[t].Some? && s.tables[k].entries[i].value == s.h.producer[t]
    ensures 0 < s.h.rank[t] < Room(Capacity(s, k))
    ensures Registered(s, t)
  {
    assert TableInv(s, k) && EntryInv(s, k, i);
    assert !Absent(s.tables[k].entries, t);
  }

  lemma FoundStep(s: State, t: nat, m: nat, cur: nat, j: nat)
    requires Inv(s) && Enabled(s, Advance(t)) && s.pcs[t] == Search(m, cur, j)
    requires cur < |s.tables| && KeyAt(s, cur, Slot(s.hashes[t], Capacity(s, cur), j)) == t + 1
    ensures Inv(Step(s, t))
  {
    assert LocalInv(s, t);
    FoundOwn(s, t, cur, Slot(s.hashes[t], Capacity(s, cur), j));
    var p := s.h.producer[t].value;
    if cur == m {
      DoneStep(s, t, p);
      assert Step(s, t) == Done(s, t, p);
    } else {
      CapacitiesGrow(s, cur, m);
      var s' := At(s, t, Place(m, p, 0));
      assert Placing(s', t, m, p, 0);
      MoveStep(s, t, Place(m, p, 0));
      assert Step(s, t) == s';
    }
  }

  lemma DoneStep(s: State, t: nat, p: Producer)
    requires Inv(s) && t < |s.pcs| && !s.pcs[t].PlaceStore? && !Critical(s.pcs[t])
    requires s.h.producer[t] == Some(p) && Registered(s, t)
    ensures Inv(Done(s, t, p))
  {
    QuietStep(s, Done(s, t, p), t, Idle);
  }

  lemma {:induction false} CapacitiesGrow(s: State, a: nat, b: nat)
    requires Inv(s) && a <= b < |s.tables|
    ensures Capacity(s, a) <= Capacity(s, b) && Room(Capacity(s, a)) <= Room(Capacity(s, b))
    decreases b
  {
    if a < b {
      assert TableInv(s, b);
      CapacitiesGrow(s, a, b - 1);
    }
  }

  lemma CountUpStep(s: State, t: nat)
    requires Inv(s) && Enabled(s, Advance(t)) && s.pcs[t].CountUp?
    ensures Inv(Step(s, t))
  {
    var s' := Step(s, t);
    assert LocalInv(s, t);
    QuietStep(s, s', t, s'.pcs[t]);
  }

  lemma TryResizeStep(s: State, t: nat)
    requires Inv(s) && Enabled(s, Advance(t)) && s.pcs[t].TryResize?
    ensures Inv(Step(s, t))
  {
    var TryResize(m, r) := s.pcs[t];
    assert LocalInv(s, t);
    if r >= Capacity(s, m) / 2 && !s.locked {
      QuietStep(s, Step(s, t), t, LoadMain(r));
    } else {
      MoveStep(s, t, CheckRoom(m, r));
    }
  }

  lemma UnlockStep(s: State, t: nat)
    requires Inv(s) && Enabled(s, Advance(t)) && s.pcs[t].Unlock?
    ensures Inv(Step(s, t))
  {
    var Unlock(m, r) := s.pcs[t];
    assert LocalInv(s, t);
    QuietStep(s, Step(s, t), t, CheckRoom(m, r));
  }

  lemma NewProducerStep(s: State, t: nat)
    requires Inv(s) && Enabled(s, Advance(t)) && s.pcs[t].NewProducer?
    ensures Inv(Step(s, t))
  {
    var s' := Step(s, t);
    assert LocalInv(s, t);
    QuietStep(s, s', t, s'.pcs[t]);
  }

  /** The next slot is occupied: move on. There is always a next slot. */
  lemma PlaceMiss(s: State, t: nat, m: nat, p: Producer, j: nat)
    requires Inv(s) && t < |s.pcs| && s.pcs[t] in {Place(m, p, j), PlaceCas(m, p, j)}
    requires Placing(s, t, m, p, j) && KeyAt(s, m, Slot(s.hashes[t], Capacity(s, m), j)) != 0
    ensures Inv(At(s, t, Place(m, p, j + 1)))
  {
    assert Passed(s.hashes[t], s.tables[m].entries, t, j + 1);
    ProbeBound(s, t, m, j + 1);
    MoveStep(s, t, Place(m, p, j + 1));
  }

  lemma PlaceStep(s: State, t: nat)
    requires Inv(s) && Enabled(s, Advance(t)) && s.pcs[t].Place?
    ensures Inv(Step(s, t))
  {
    var Place(m, p, j) := s.pcs[t];
    assert LocalInv(s, t);
    if KeyAt(s, m, Slot(s.hashes[t], Capacity(s, m), j)) == 0 {
      MoveStep(s, t, PlaceCas(m, p, j));
    } else {
      PlaceMiss(s, t, m, p, j);
    }
  }

  // ---- Steps that change the tables

  /** Some empty slots took thread t's key; nothing else about the keys changed. */
  predicate KeysAdded(es: seq<Entry>, es': seq<Entry>, t: nat) {
    && |es'| == |es|
    && forall i | 0 <= i < |es| :: es'[i].key == es[i].key || (es[i].key == 0 && es'[i].key == t + 1)
  }

  lemma OthersUnaffected(hash: nat, es: seq<Entry>, es': seq<Entry>, t: nat, u: nat)
    requires KeysAdded(es, es', t) && t != u && |es| > 0
    ensures Absent(es, u) <==> Absent(es', u)
    ensures forall j: nat :: Passed(hash, es, u, j) ==> Passed(hash, es', u, j)
    ensures Findable(hash, es, u) ==> Findable(hash, es', u)
  {
    forall j: nat | Passed(hash, es, u, j) ensures Passed(hash, es', u, j) {
      forall i | 0 <= i < j ensures es'[Slot(hash, |es'|, i)].key !in {0, u + 1} {
        assert es[Slot(hash, |es|, i)].key !in {0, u + 1};
      }
    }
    if Findable(hash, es, u) {
      var j :| 0 <= j < |es| && Passed(hash, es, u, j) && es[Slot(hash, |es|, j)].key == u + 1;
      assert Passed(hash, es', u, j) && es'[Slot(hash, |es'|, j)].key == u + 1;
    }
  }

  /** Thread t wrote to a table; everything other threads own is as before. */
  predicate TablesWritten(s: State, s': State, t: nat) {
    && Shaped(s) && Shaped(s') && t < |s.pcs|
    && s'.hashes == s.hashes && s'.main == s.main
    && |s'.pcs| == |s.pcs| && (forall u | 0 <= u < |s.pcs| && u != t :: s'.pcs[u] == s.pcs[u])
    && s'.h.rank == s.h.rank && s'.h.producer == s.h.producer
    && (forall u | 0 <= u < |s.pcs| && u != t :: s'.h.returned[u] == s.h.returned[u])
    && |s'.tables| == |s.tables|
    && forall k | 0 <= k < |s.tables| ::
         s'.tables[k].prev == s.tables[k].prev && KeysAdded(s.tables[k].entries, s'.tables[k].entries, t)
  }

  lemma OthersAbsent(s: State, s': State, t: nat, u: nat)
    requires TablesWritten(s, s', t) && u < |s.pcs| && u != t
    ensures AbsentEverywhere(s.tables, u) <==> AbsentEverywhere(s'.tables, u)
    ensures forall k | 0 <= k < |s.tables| :: Absent(s.tables[k].entries, u) <==> Absent(s'.tables[k].entries, u)
  {
    forall k | 0 <= k < |s.tables| ensures Absent(s.tables[k].entries, u) <==> Absent(s'.tables[k].entries, u) {
      OthersUnaffected(s.hashes[u], s.tables[k].entries, s'.tables[k].entries, t, u);
    }
  }

  lemma OthersLocal(s: State, s': State, t: nat, u: nat)
    requires TablesWritten(s, s', t) && u < |s.pcs| && u != t && LocalInv(s, u)
    ensures LocalInv(s', u)
  {
    OthersAbsent(s, s', t, u);
    match s.pcs[u]
    case Search(_, cur, _) =>
      OthersUnaffected(s.hashes[u], s.tables[cur].entries, s'.tables[cur].entries, t, u);
    case Place(m, _, _) =>
      OthersUnaffected(s.hashes[u], s.tables[m].entries, s'.tables[m].entries, t, u);
    case PlaceCas(m, _, _) =>
      OthersUnaffected(s.hashes[u], s.tables[m].entries, s'.tables[m].entries, t, u);
    case _ =>
  }

  lemma OthersEntries(s: State, s': State, t: nat, k: nat, i: nat)
    requires TablesWritten(s, s', t) && k < |s.tables| && i < Capacity(s, k)
    requires EntryInv(s, k, i) && s'.tables[k].entries[i] == s.tables[k].entries[i]
    requires KeyAt(s, k, i) != t + 1
    ensures EntryInv(s', k, i)
  {
    var key := KeyAt(s, k, i);
    if key > 0 {
      OthersUnaffected(s.hashes[key - 1], s.tables[k].entries, s'.tables[k].entries, t, key - 1);
    }
  }

  /** The thread's own entries in tables where no key changed. */
  lemma OwnEntries(s: State, s': State, t: nat, k: nat, i: nat)
    requires TablesWritten(s, s', t) && k < |s.tables| && i < Capacity(s, k)
    requires EntryInv(s, k, i) && KeyAt(s, k, i) == t + 1
    requires forall x | 0 <= x < Capacity(s, k) :: s'.tables[k].entries[x].key == s.tables[k].entries[x].key
    requires s'.tables[k].entries[i].value == s.h.producer[t]
    ensures EntryInv(s', k, i)
  {
    var es, es' := s.tables[k].entries, s'.tables[k].entries;
    var j :| 0 <= j < |es| && Passed(s.hashes[t], es, t, j) && es[Slot(s.hashes[t], |es|, j)].key == t + 1;
    forall x | 0 <= x < j ensures es'[Slot(s.hashes[t], |es'|, x)].key !in {0, t + 1} {
      assert es[Slot(s.hashes[t], |es|, x)].key !in {0, t + 1};
    }
    assert Passed(s.hashes[t], es', t, j) && es'[Slot(s.hashes[t], |es'|, j)].key == t + 1;
  }

  lemma EnteredIsFindable(hash: nat, es: seq<Entry>, es': seq<Entry>, t: nat, j: nat)
    requires 0 <= j < |es| && Passed(hash, es, t, j) && es[Slot(hash, |es|, j)].key == 0
    requires |es'| == |es| && es'[Slot(hash, |es|, j)].key == t + 1
    requires forall x | 0 <= x < |es| && x != Slot(hash, |es|, j) :: es'[x] == es[x]
    ensures Findable(hash, es', t)
  {
    forall i | 0 <= i < j ensures es'[Slot(hash, |es'|, i)].key !in {0, t + 1} {
      assert es[Slot(hash, |es|, i)].key !in {0, t + 1};
    }
    assert Passed(hash, es', t, j);
  }

  lemma CasTables(s: State, t: nat, s': State, m: nat, p: Producer, j: nat)
    requires Inv(s) && Enabled(s, Advance(t)) && s.pcs[t] == PlaceCas(m, p, j)
    requires KeyAt(s, m, Slot(s.hashes[t], Capacity(s, m), j)) == 0 && s' == Step(s, t)
    ensures TablesWritten(s, s', t)
    ensures forall k | 0 <= k < |s.tables| :: TableInv(s', k)
  {
    assert LocalInv(s, t);
    var i := Slot(s.hashes[t], Capacity(s, m), j);
    EnteredIsFindable(s.hashes[t], s.tables[m].entries, s'.tables[m].entries, t, j);
    forall k | 0 <= k < |s.tables| ensures TableInv(s', k) {
      assert TableInv(s, k);
      forall x | 0 <= x < Capacity(s', k) ensures EntryInv(s', k, x) {
        CasEntry(s, t, s', m, p, j, k, x);
      }
    }
  }

  lemma CasEntry(s: State, t: nat, s': State, m: nat, p: Producer, j: nat, k: nat, x: nat)
    requires TablesWritten(s, s', t) && Enabled(s, Advance(t)) && s.pcs[t] == PlaceCas(m, p, j) && s' == Step(s, t)
    requires LocalInv(s, t) && k < |s.tables| && x < Capacity(s, k) && EntryInv(s, k, x)
    requires KeyAt(s, m, Slot(s.hashes[t], Capacity(s, m), j)) == 0
    requires Findable(s.hashes[t], s'.tables[m].entries, t)
    ensures EntryInv(s', k, x)
  {
    if KeyAt(s', k, x) != t + 1 {
      OthersEntries(s, s', t, k, x);
    } else if k != m {
      OwnEntries(s, s', t, k, x);
    }
  }

  lemma CasStep(s: State, t: nat)
    requires Inv(s) && Enabled(s, Advance(t)) && s.pcs[t].PlaceCas?
    requires KeyAt(s, s.pcs[t].main, Slot(s.hashes[t], Capacity(s, s.pcs[t].main), s.pcs[t].probe)) == 0
    ensures Inv(Step(s, t))
  {
    var PlaceCas(m, p, j) := s.pcs[t];
    var s' := Step(s, t);
    CasTables(s, t, s', m, p, j);
    assert LocalInv(s, t);
    forall u | 0 <= u < |s'.pcs| ensures LocalInv(s', u) {
      if u != t {
        OthersLocal(s, s', t, u);
      }
    }
  }

  lemma StoreEntry(s: State, t: nat, s': State, m: nat, p: Producer, i: nat, k: nat, x: nat)
    requires TablesWritten(s, s', t) && k < |s.tables| && x < Capacity(s, k) && EntryInv(s, k, x)
    requires m < |s.tables| && i < Capacity(s, m) && KeyAt(s, m, i) == t + 1
    requires s.pcs[t] == PlaceStore(m, p, i) && s.h.producer[t] == Some(p)
    requires s'.tables == SetEntry(s, m, i, s.tables[m].entries[i].(value := Some(p))).tables
    ensures EntryInv(s', k, x)
  {
    if KeyAt(s, k, x) != t + 1 {
      OthersEntries(s, s', t, k, x);
    } else {
      OwnEntries(s, s', t, k, x);
    }
  }

  lemma StoreTables(s: State, t: nat, s': State, m: nat, p: Producer, i: nat)
    requires Inv(s) && Enabled(s, Advance(t)) && s.pcs[t] == PlaceStore(m, p, i) && s' == Step(s, t)
    ensures TablesWritten(s, s', t)
    ensures forall k | 0 <= k < |s.tables| :: TableInv(s', k)
  {
    assert LocalInv(s, t);
    forall k | 0 <= k < |s.tables| ensures TableInv(s', k) {
      assert TableInv(s, k);
      forall x | 0 <= x < Capacity(s', k) ensures EntryInv(s', k, x) {
        StoreEntry(s, t, s', m, p, i, k, x);
      }
    }
  }

  lemma StoreStep(s: State, t: nat)
    requires Inv(s) && Enabled(s, Advance(t)) && s.pcs[t].PlaceStore?
    ensures Inv(Step(s, t))
  {
    var PlaceStore(m, p, i) := s.pcs[t];
    var s' := Step(s, t);
    StoreTables(s, t, s', m, p, i);
    assert LocalInv(s, t);
    assert !Absent(s'.tables[m].entries, t) by {
      assert s'.tables[m].entries[i].key == t + 1;
    }
    forall u | 0 <= u < |s'.pcs| ensures LocalInv(s', u) {
      if u != t {
        OthersLocal(s, s', t, u);
      }
    }
  }

  lemma GrowLocal(s: State, t: nat, s': State, table: Table, u: nat)
    requires Inv(s) && t < |s.pcs| && s.pcs[t].Grow? && u < |s.pcs|
    requires table == Fresh(|table.entries|, Some(s.main)) && |table.entries| > 0
    requires s' == At(s, t, Unlock(|s.tables|, s.pcs[t].rank)).(tables := s.tables + [table], main := |s.tables|)
    ensures Shaped(s') && LocalInv(s', u)
  {
    assert LocalInv(s, u);
    assert AbsentEverywhere(s.tables, u) <==> AbsentEverywhere(s'.tables, u) by {
      assert Absent(s'.tables[|s.tables|].entries, u);
      assert forall k | 0 <= k < |s.tables| :: s'.tables[k] == s.tables[k];
    }
    if u != t {
      assert !Critical(s.pcs[if u < t then u else t]) || !Critical(s.pcs[if u < t then t else u]);
    }
  }

  lemma GrowStep(s: State, t: nat)
    requires Inv(s) && Enabled(s, Advance(t)) && s.pcs[t].Grow?
    ensures Inv(Step(s, t))
  {
    var Grow(m, r) := s.pcs[t];
    var s' := Step(s, t);
    assert LocalInv(s, t);
    var table := s'.tables[|s.tables|];
    forall u | 0 <= u < |s'.pcs| ensures LocalInv(s', u) {
      GrowLocal(s, t, s', table, u);
    }
    forall k | 0 <= k < |s'.tables| ensures TableInv(s', k) {
      if k < |s.tables| {
        assert TableInv(s, k);
        forall i | 0 <= i < Capacity(s', k) ensures EntryInv(s', k, i) {
          assert EntryInv(s, k, i);
        }
      }
    }
  }

  /** Steps that only read. */
  lemma PlainStep(s: State, t: nat)
    requires Inv(s) && Enabled(s, Advance(t))
    requires s.pcs[t].Start? || s.pcs[t].LoadMain? || s.pcs[t].CheckRoom? || s.pcs[t].Reload?
    ensures Inv(Step(s, t))
  {
    assert LocalInv(s, t);
    MoveStep(s, t, Step(s, t).pcs[t]);
  }

  lemma StepInv(s: State, t: nat)
    requires Inv(s) && Enabled(s, Advance(t))
    ensures Inv(Step(s, t))
  {
    match s.pcs[t]
    case Start => PlainStep(s, t);
    case Search(_, _, _) => SearchStep(s, t);
    case CountUp(_) => CountUpStep(s, t);
    case TryResize(_, _) => TryResizeStep(s, t);
    case LoadMain(_) => PlainStep(s, t);
    case Grow(_, _) => GrowStep(s, t);
    case Unlock(_, _) => UnlockStep(s, t);
    case CheckRoom(_, _) => PlainStep(s, t);
    case Reload(_) => PlainStep(s, t);
    case NewProducer(_, _) => NewProducerStep(s, t);
    case Place(_, _, _) => PlaceStep(s, t);
    case PlaceCas(m, p, j) =>
      assert LocalInv(s, t);
      if KeyAt(s, m, Slot(s.hashes[t], Capacity(s, m), j)) == 0 {
        CasStep(s, t);
      } else {
        PlaceMiss(s, t, m, p, j);
      }
    case PlaceStore(_, _, _) => StoreStep(s, t);
  }

  lemma {:induction false} RunInv(s: State, actions: seq<Action>)
    requires Inv(s) && Runs(s, actions)
    ensures Inv(After(s, actions))
    decreases |actions|
  {
    if actions != [] {
      match actions[0]
      case Call(t) =>
        assert LocalInv(s, t);
        MoveStep(s, t, Start);
        RunInv(Apply(s, actions[0]), actions[1..]);
      case Advance(t) =>
        StepInv(s, t);
        RunInv(Apply(s, actions[0]), actions[1..]);
    }
  }

  ghost predicate Reachable(s: State) {
    exists hashes, capacity: nat, actions ::
      capacity > 0 && Runs(Init(hashes, capacity), actions) && s == After(Init(hashes, capacity), actions)
  }

  lemma ReachableInv(s: State)
    requires Reachable(s)
    ensures Inv(s)
  {
    var hashes, capacity: nat, actions :|
      capacity > 0 && Runs(Init(hashes, capacity), actions) && s == After(Init(hashes, capacity), actions);
    InitInv(hashes, capacity);
    RunInv(Init(hashes, capacity), actions);
  }

  // ---- Main results

  /** In every reachable state each table, however old, has fewer than three quarters of its slots in use. */
  lemma TablesNeverFill(s: State, k: nat)
    requires Reachable(s) && k < |s.tables|
    ensures 4 * |UsedSlots(s.tables[k].entries)| < 3 * |s.tables[k].entries|
  {
    ReachableInv(s);
    TableHasRoom(s, k);
  }

  /** So every probe loop has looked at fewer than three quarters of its table: it ends. */
  lemma ProbesEnd(s: State, t: nat)
    requires Reachable(s) && t < |s.pcs|
    ensures s.pcs[t].Search? ==>
              s.pcs[t].cur < |s.tables| && 4 * s.pcs[t].probe < 3 * Capacity(s, s.pcs[t].cur)
    ensures s.pcs[t].Place? || s.pcs[t].PlaceCas? ==>
              s.pcs[t].main < |s.tables| && 4 * s.pcs[t].probe < 3 * Capacity(s, s.pcs[t].main)
  {
    ReachableInv(s);
    assert LocalInv(s, t);
    if s.pcs[t].Search? {
      ProbeBound(s, t, s.pcs[t].cur, s.pcs[t].probe);
    } else if s.pcs[t].Place? || s.pcs[t].PlaceCas? {
      ProbeBound(s, t, s.pcs[t].main, s.pcs[t].probe);
    }
  }

  /** All calls of one thread return the same producer, and no two threads get the same one. */
  lemma OneProducerPerThread(s: State, t: nat, u: nat, p: Producer, q: Producer)
    requires Reachable(s) && Shaped(s) && t < |s.pcs| && u < |s.pcs|
    requires p in s.h.returned[t] && q in s.h.returned[u]
    ensures t == u <==> p == q
    ensures s.h.producer[t] == Some(p) && p < s.created
  {
    ReachableInv(s);
    assert s.h.producer[t] == Some(p) && s.h.producer[u] == Some(q);
    if t < u {
      assert s.h.producer[t] != s.h.producer[u];
    } else if u < t {
      assert s.h.producer[u] != s.h.producer[t];
    }
  }

  /** A thread inside a call never indexes outside a table. */
  lemma NeverStuck(s: State, t: nat)
    requires Reachable(s) && t < |s.pcs| && !s.pcs[t].Idle?
    ensures Enabled(s, Advance(t))
  {
    ReachableInv(s);
    assert LocalInv(s, t);
  }
}
