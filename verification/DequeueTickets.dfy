/**
  The dequeue protocol shared by both kinds of producer (common/concurrentqueue.h, `dequeue`): a consumer reads
  the overcommit count, takes a ticket from the optimistic count, checks it against the tail, and then either
  claims the next head index or undoes its ticket by raising the overcommit count.

  One producer publishes elements and any number of consumers run; each atomic operation is one step. The four
  registers wrap at 2^64. `History` records unbounded counts for stating properties; no step depends on it.
 */
module DequeueTickets {
  import opened CircularIndex
  import opened Words

  datatype Pc =
    | Idle
    | Start
    | HaveTail(tail: Index)
    | HaveOvercommit(tail: Index, overcommit: Index)
    | Committed(overcommit: Index)
    | HaveTicket(count: Index, overcommit: Index)
    | Claiming
    | Holding(index: Index)
    | Overcommitting

  /**
    `passed` and `failed` are the tickets that passed the second check and those whose failure has been
    recorded; `seen[t]` and `ticket[t]` are the unbounded values of consumer t's locals; `claims` are the
    head indices handed out, in order.
   */
  datatype History = History(
    published: nat,
    tickets: nat,
    passed: set<nat>,
    failed: set<nat>,
    seen: seq<nat>,
    ticket: seq<nat>,
    claims: seq<Index>)

  datatype State = State(
    tail: Index,
    head: Index,
    optimistic: Index,
    overcommit: Index,
    pcs: seq<Pc>,
    h: History)

  datatype Action = Publish | BeginDequeue(consumer: nat) | Advance(consumer: nat)

  function Init(consumers: nat): State {
    State(0, 0, 0, 0, seq(consumers, _ => Idle),
          History(0, 0, {}, {}, seq(consumers, _ => 0), seq(consumers, _ => 0), []))
  }

  predicate Shaped(s: State) {
    |s.h.seen| == |s.h.ticket| == |s.pcs|
  }

  predicate Enabled(s: State, a: Action) {
    && Shaped(s)
    && match a
       case Publish => true
       case BeginDequeue(t) => t < |s.pcs| && s.pcs[t].Idle?
       case Advance(t) => t < |s.pcs| && !s.pcs[t].Idle?
  }

  function At(s: State, t: nat, pc: Pc): State
    requires t < |s.pcs|
  {
    s.(pcs := s.pcs[t := pc])
  }

  function Apply(s: State, a: Action): State
    requires Enabled(s, a)
  {
    match a
    case Publish => s.(tail := Wrap(s.tail + 1), h := s.h.(published := s.h.published + 1))
    case BeginDequeue(t) => At(s, t, Start)
    case Advance(t) => Step(s, t)
  }

  function Step(s: State, t: nat): State
    requires Enabled(s, Advance(t))
  {
    match s.pcs[t]
    case Start => At(s, t, HaveTail(s.tail))
    case HaveTail(tail) =>
      At(s, t, HaveOvercommit(tail, s.overcommit)).(h := s.h.(seen := s.h.seen[t := |s.h.failed|]))
    case HaveOvercommit(tail, over) =>
      At(s, t, if CircularLess(Wrap(s.optimistic - over), tail) then Committed(over) else Idle)
    case Committed(over) =>
      At(s, t, HaveTicket(s.optimistic, over))
      .(optimistic := Wrap(s.optimistic + 1),
        h := s.h.(tickets := s.h.tickets + 1, ticket := s.h.ticket[t := s.h.tickets]))
    case HaveTicket(count, over) =>
      if CircularLess(Wrap(count - over), s.tail)
      then At(s, t, Claiming).(h := s.h.(passed := s.h.passed + {s.h.ticket[t]}))
      else At(s, t, Overcommitting)
    case Claiming =>
      At(s, t, Holding(s.head)).(head := Wrap(s.head + 1), h := s.h.(claims := s.h.claims + [s.head]))
    case Holding(_) => At(s, t, Idle)
    case Overcommitting =>
      At(s, t, Idle).(overcommit := Wrap(s.overcommit + 1), h := s.h.(failed := s.h.failed + {s.h.ticket[t]}))
  }

  ghost predicate Runs(s: State, actions: seq<Action>)
    decreases |actions|
  {
    actions == [] || (Enabled(s, actions[0]) && Runs(Apply(s, actions[0]), actions[1..]))
  }

  ghost function After(s: State, actions: seq<Action>): State
    requires Runs(s, actions)
    decreases |actions|
  {
    if actions == [] then s else After(Apply(s, actions[0]), actions[1..])
  }

  ghost predicate Reachable(s: State) {
    exists n: nat, actions :: Runs(Init(n), actions) && s == After(Init(n), actions)
  }

  // ---- Counting consumers by phase

  datatype Phase = Undecided | Entitled

  predicate In(phase: Phase, pc: Pc) {
    match phase
    case Undecided => pc.HaveTicket? || pc.Overcommitting?
    case Entitled => pc.Claiming?
  }

  function Count(phase: Phase, pcs: seq<Pc>): nat {
    if pcs == [] then 0 else (if In(phase, pcs[0]) then 1 else 0) + Count(phase, pcs[1..])
  }

  /** Consumers that took a ticket and have neither claimed an index nor recorded a failure. */
  function InFlight(s: State): nat {
    Count(Undecided, s.pcs) + Count(Entitled, s.pcs)
  }

  lemma {:induction false} CountUpdate(phase: Phase, pcs: seq<Pc>, t: nat, pc: Pc)
    requires t < |pcs|
    ensures Count(phase, pcs[t := pc]) ==
            Count(phase, pcs) - (if In(phase, pcs[t]) then 1 else 0) + (if In(phase, pc) then 1 else 0)
  {
    if t == 0 {
      assert pcs[t := pc][1..] == pcs[1..];
    } else {
      assert pcs[t := pc][1..] == pcs[1..][t - 1 := pc];
      CountUpdate(phase, pcs[1..], t - 1, pc);
    }
  }

  lemma {:induction false} CountNone(phase: Phase, pcs: seq<Pc>)
    requires forall t | 0 <= t < |pcs| :: !In(phase, pcs[t])
    ensures Count(phase, pcs) == 0
  {
    if pcs != [] {
      CountNone(phase, pcs[1..]);
    }
  }

  // ---- Sets of tickets

  ghost function Below(tickets: set<nat>, d: nat): set<nat> {
    set x | x in tickets && x < d
  }

  lemma {:induction false} SizeBelow(a: set<nat>, b: set<nat>, d: nat)
    requires a !! b && forall x | x in a || x in b :: x < d
    ensures |a| + |b| <= d
  {
    if d == 0 {
      assert a == {} && b == {};
    } else {
      SizeBelow(a - {d - 1}, b - {d - 1}, d - 1);
      assert |a - {d - 1}| >= |a| - (if d - 1 in a then 1 else 0);
      assert |b - {d - 1}| >= |b| - (if d - 1 in b then 1 else 0);
    }
  }

  lemma SubsetSize(a: set<nat>, b: set<nat>)
    requires a <= b
    ensures |a| <= |b|
  {
    assert b == a + (b - a);
  }

  lemma {:induction false} Largest(s: set<nat>) returns (m: nat)
    requires s != {}
    ensures m in s && forall x | x in s :: x <= m
  {
    var x :| x in s;
    if s == {x} {
      m := x;
    } else {
      assert s - {x} != {};
      var y := Largest(s - {x});
      assert forall z | z in s :: z == x || z in s - {x};
      m := if x > y then x else y;
    }
  }

  // ---- The invariant

  ghost predicate LocalInv(s: State, t: nat)
    requires Shaped(s) && t < |s.pcs|
  {
    match s.pcs[t]
    case HaveOvercommit(_, over) => over == Wrap(s.h.seen[t]) && s.h.seen[t] <= |s.h.failed|
    case Committed(over) => over == Wrap(s.h.seen[t]) && s.h.seen[t] <= |s.h.failed|
    case HaveTicket(count, over) =>
      && count == Wrap(s.h.ticket[t]) && over == Wrap(s.h.seen[t])
      && Pending(s.h, s.h.ticket[t])
      && s.h.seen[t] <= |Below(s.h.failed, s.h.ticket[t])|
    case Overcommitting => Pending(s.h, s.h.ticket[t])
    case _ => true
  }

  ghost predicate Pending(h: History, d: nat) {
    d < h.tickets && d !in h.passed && d !in h.failed
  }

  ghost predicate DistinctTickets(s: State)
    requires Shaped(s)
  {
    forall t, u | 0 <= t < u < |s.pcs| && In(Undecided, s.pcs[t]) && In(Undecided, s.pcs[u]) ::
      s.h.ticket[t] != s.h.ticket[u]
  }

  ghost predicate Registers(s: State) {
    && s.tail == Wrap(s.h.published)
    && s.head == Wrap(|s.h.claims|)
    && s.optimistic == Wrap(s.h.tickets)
    && s.overcommit == Wrap(|s.h.failed|)
    && (forall k | 0 <= k < |s.h.claims| :: s.h.claims[k] == Wrap(k))
  }

  ghost predicate Tally(s: State) {
    && s.h.tickets == |s.h.passed| + |s.h.failed| + Count(Undecided, s.pcs)
    && |s.h.passed| == |s.h.claims| + Count(Entitled, s.pcs)
  }

  ghost predicate TicketSets(h: History) {
    && h.passed !! h.failed
    && (forall d | d in h.passed || d in h.failed :: d < h.tickets)
  }

  ghost predicate Inv(s: State) {
    && Shaped(s)
    && Registers(s)
    && Tally(s)
    && TicketSets(s.h)
    && DistinctTickets(s)
    && forall t | 0 <= t < |s.pcs| :: LocalInv(s, t)
  }

  lemma InitInv(n: nat)
    ensures Inv(Init(n))
  {
    CountNone(Undecided, Init(n).pcs);
    CountNone(Entitled, Init(n).pcs);
  }

  // ---- Every step keeps it

  lemma CountsAfter(s: State, t: nat, pc: Pc)
    requires t < |s.pcs|
    ensures Count(Undecided, s.pcs[t := pc]) ==
            Count(Undecided, s.pcs) - (if In(Undecided, s.pcs[t]) then 1 else 0) + (if In(Undecided, pc) then 1 else 0)
    ensures Count(Entitled, s.pcs[t := pc]) ==
            Count(Entitled, s.pcs) - (if In(Entitled, s.pcs[t]) then 1 else 0) + (if In(Entitled, pc) then 1 else 0)
  {
    CountUpdate(Undecided, s.pcs, t, pc);
    CountUpdate(Entitled, s.pcs, t, pc);
  }

  lemma PublishInv(s: State)
    requires Inv(s)
    ensures Inv(Apply(s, Publish))
  {
    var s' := Apply(s, Publish);
    WrapSum(s.h.published, 1);
    forall t | 0 <= t < |s'.pcs| ensures LocalInv(s', t) {
      assert LocalInv(s, t);
    }
  }

  /** Steps that neither take nor settle a ticket. */
  lemma QuietStep(s: State, t: nat, pc: Pc)
    requires Inv(s) && t < |s.pcs|
    requires In(Undecided, pc) == In(Undecided, s.pcs[t]) && In(Entitled, pc) == In(Entitled, s.pcs[t])
    requires LocalInv(At(s, t, pc), t)
    ensures Inv(At(s, t, pc))
  {
    CountsAfter(s, t, pc);
    var s' := At(s, t, pc);
    forall u | 0 <= u < |s'.pcs| ensures LocalInv(s', u) {
      if u != t {
        assert LocalInv(s, u);
      }
    }
  }

  lemma ReadOvercommitInv(s: State, t: nat)
    requires Inv(s) && Enabled(s, Advance(t)) && s.pcs[t].HaveTail?
    ensures Inv(Step(s, t))
  {
    var s' := Step(s, t);
    CountsAfter(s, t, s'.pcs[t]);
    forall u | 0 <= u < |s'.pcs| ensures LocalInv(s', u) {
      if u != t {
        assert LocalInv(s, u);
      }
    }
  }

  lemma TakeTicketInv(s: State, t: nat)
    requires Inv(s) && Enabled(s, Advance(t)) && s.pcs[t].Committed?
    ensures Inv(Step(s, t))
  {
    var s' := Step(s, t);
    CountsAfter(s, t, s'.pcs[t]);
    WrapSum(s.h.tickets, 1);
    assert LocalInv(s, t);
    assert Below(s.h.failed, s.h.tickets) == s.h.failed;
    forall u | 0 <= u < |s'.pcs| ensures LocalInv(s', u) {
      if u != t {
        assert LocalInv(s, u);
      }
    }
    forall u, w | 0 <= u < w < |s'.pcs| && In(Undecided, s'.pcs[u]) && In(Undecided, s'.pcs[w])
      ensures s'.h.ticket[u] != s'.h.ticket[w]
    {
      assert u != t ==> LocalInv(s, u);
      assert w != t ==> LocalInv(s, w);
    }
  }

  function Passing(s: State, t: nat): State
    requires Shaped(s) && t < |s.pcs|
  {
    At(s, t, Claiming).(h := s.h.(passed := s.h.passed + {s.h.ticket[t]}))
  }

  lemma PassingInv(s: State, t: nat)
    requires Inv(s) && t < |s.pcs| && s.pcs[t].HaveTicket?
    ensures Inv(Passing(s, t))
  {
    var s' := Passing(s, t);
    var d := s.h.ticket[t];
    CountsAfter(s, t, Claiming);
    assert LocalInv(s, t);
    forall u | 0 <= u < |s'.pcs| ensures LocalInv(s', u) {
      if u != t {
        assert LocalInv(s, u);
      }
    }
  }

  lemma FailInv(s: State, t: nat)
    requires Inv(s) && Enabled(s, Advance(t)) && s.pcs[t].Overcommitting?
    ensures Inv(Step(s, t))
  {
    var s' := Step(s, t);
    var d := s.h.ticket[t];
    CountsAfter(s, t, Idle);
    assert LocalInv(s, t);
    WrapSum(|s.h.failed|, 1);
    forall x: nat ensures |Below(s.h.failed, x)| <= |Below(s'.h.failed, x)| {
      SubsetSize(Below(s.h.failed, x), Below(s'.h.failed, x));
    }
    forall u | 0 <= u < |s'.pcs| ensures LocalInv(s', u) {
      if u != t {
        assert LocalInv(s, u);
      }
    }
  }

  lemma ClaimInv(s: State, t: nat)
    requires Inv(s) && Enabled(s, Advance(t)) && s.pcs[t].Claiming?
    ensures Inv(Step(s, t))
  {
    var s' := Step(s, t);
    CountsAfter(s, t, s'.pcs[t]);
    WrapSum(|s.h.claims|, 1);
    forall u | 0 <= u < |s'.pcs| ensures LocalInv(s', u) {
      if u != t {
        assert LocalInv(s, u);
      }
    }
  }

  lemma StepInv(s: State, t: nat)
    requires Inv(s) && Enabled(s, Advance(t))
    ensures Inv(Step(s, t))
  {
    assert LocalInv(s, t);
    match s.pcs[t]
    case Start => QuietStep(s, t, HaveTail(s.tail));
    case HaveTail(_) => ReadOvercommitInv(s, t);
    case HaveOvercommit(_, _) => QuietStep(s, t, Step(s, t).pcs[t]);
    case Committed(_) => TakeTicketInv(s, t);
    case HaveTicket(count, over) =>
      if CircularLess(Wrap(count - over), s.tail) {
        PassingInv(s, t);
      } else {
        QuietStep(s, t, Overcommitting);
      }
    case Claiming => ClaimInv(s, t);
    case Holding(_) => QuietStep(s, t, Idle);
    case Overcommitting => FailInv(s, t);
  }

  lemma ApplyInv(s: State, a: Action)
    requires Inv(s) && Enabled(s, a)
    ensures Inv(Apply(s, a))
  {
    match a
    case Publish => PublishInv(s);
    case BeginDequeue(t) => QuietStep(s, t, Start);
    case Advance(t) => StepInv(s, t);
  }

  lemma {:induction false} RunInv(s: State, actions: seq<Action>)
    requires Inv(s) && Runs(s, actions)
    ensures Inv(After(s, actions))
    decreases |actions|
  {
    if actions != [] {
      ApplyInv(s, actions[0]);
      RunInv(Apply(s, actions[0]), actions[1..]);
    }
  }

  lemma ReachableInv(s: State)
    requires Reachable(s)
    ensures Inv(s)
  {
    var n: nat, actions :| Runs(Init(n), actions) && s == After(Init(n), actions);
    InitInv(n);
    RunInv(Init(n), actions);
  }

  // ---- Main results

  /** The k-th claim ever made gets index k, so no index is claimed twice and none is skipped. */
  lemma ClaimsInOrder(s: State)
    requires Reachable(s)
    ensures s.h.claims == seq(|s.h.claims|, k => Wrap(k))
    ensures s.head == Wrap(|s.h.claims|)
  {
    ReachableInv(s);
  }

  /** The registers balance: every ticket is a recorded failure, a claimed index, or still in flight. */
  lemma RegistersBalance(s: State)
    requires Reachable(s)
    ensures s.optimistic == Wrap(s.overcommit + s.head + InFlight(s))
  {
    ReachableInv(s);
    var f, c := |s.h.failed|, |s.h.claims|;
    WrapSum(c, InFlight(s) + Wrap(f));
    WrapSum(f, c + InFlight(s));
  }

  predicate Quiescent(s: State) {
    forall t | 0 <= t < |s.pcs| :: s.pcs[t].Idle?
  }

  /** Consumer t runs alone for some steps, or until its call returns. */
  function Alone(s: State, t: nat, steps: nat): State
    requires Shaped(s) && t < |s.pcs|
    decreases steps
  {
    if steps == 0 || s.pcs[t].Idle? then s else Alone(Step(s, t), t, steps - 1)
  }

  lemma FirstCheckAlone(s: State, t: nat)
    requires Shaped(s) && t < |s.pcs| && s.pcs[t] == Start
    ensures var r := Alone(s, t, 3);
            && Shaped(r) && |r.pcs| == |s.pcs|
            && r.(pcs := s.pcs, h := s.h) == s && r.h.claims == s.h.claims
            && r.pcs[t] == if CircularLess(Wrap(s.optimistic - s.overcommit), s.tail) then Committed(s.overcommit)
                           else Idle
  {
    var s1 := Step(s, t);
    var s2 := Step(s1, t);
    assert s2.pcs[t] == HaveOvercommit(s.tail, s.overcommit);
    assert Alone(s, t, 3) == Alone(s1, t, 2) == Alone(s2, t, 1) == Alone(Step(s2, t), t, 0);
  }

  lemma SecondCheckAlone(s: State, t: nat)
    requires Shaped(s) && t < |s.pcs| && s.pcs[t] == Committed(s.overcommit)
    requires CircularLess(Wrap(s.optimistic - s.overcommit), s.tail)
    ensures var r := Alone(s, t, 3);
            && r.pcs[t] == Holding(s.head) && r.h.claims == s.h.claims + [s.head]
  {
    var s1 := Step(s, t);
    var s2 := Step(s1, t);
    assert s2.pcs[t] == Claiming;
    assert Alone(s, t, 3) == Alone(s1, t, 2) == Alone(s2, t, 1) == Alone(Step(s2, t), t, 0);
  }

  lemma {:induction false} AloneSplits(s: State, t: nat, a: nat, b: nat)
    requires Shaped(s) && t < |s.pcs|
    ensures Shaped(Alone(s, t, a)) && |Alone(s, t, a).pcs| == |s.pcs|
    ensures Alone(s, t, a + b) == Alone(Alone(s, t, a), t, b)
    decreases a
  {
    if a != 0 && !s.pcs[t].Idle? {
      AloneSplits(Step(s, t), t, a - 1, b);
    }
  }

  /**
    After any run, with nothing in flight, a lone dequeue claims the head index exactly when the queued elements,
    modulo 2^64, are more than none and fewer than 2^63; otherwise it fails and changes no register.
   */
  lemma LoneDequeue(s: State, t: nat)
    requires Reachable(s) && Quiescent(s) && t < |s.pcs|
    ensures Enabled(s, BeginDequeue(t))
    ensures var r := Alone(Apply(s, BeginDequeue(t)), t, 6);
            && |r.pcs| == |s.pcs|
            && if 0 < Wrap(s.h.published - |s.h.claims|) < HALF
               then r.pcs[t] == Holding(s.head) && r.h.claims == s.h.claims + [s.head]
               else r.pcs[t] == Idle && r.(pcs := s.pcs, h := s.h) == s && r.h.claims == s.h.claims
  {
    ReachableInv(s);
    FirstCheckOutcome(s);
    LoneOutcome(s, t, 0 < Wrap(s.h.published - |s.h.claims|) < HALF);
  }

  lemma LoneOutcome(s: State, t: nat, nonempty: bool)
    requires Enabled(s, BeginDequeue(t))
    requires CircularLess(Wrap(s.optimistic - s.overcommit), s.tail) <==> nonempty
    ensures var r := Alone(Apply(s, BeginDequeue(t)), t, 6);
            && |r.pcs| == |s.pcs|
            && (!nonempty ==> r.pcs[t] == Idle && r.(pcs := s.pcs, h := s.h) == s && r.h.claims == s.h.claims)
            && (nonempty ==> r.pcs[t] == Holding(s.head) && r.h.claims == s.h.claims + [s.head])
  {
    var s1 := Apply(s, BeginDequeue(t));
    AloneSplits(s1, t, 6, 0);
    AloneSplits(s1, t, 3, 3);
    AloneOutcome(s1, t, nonempty);
  }

  /** A lone call after its start, given the outcome of the first check. */
  lemma AloneOutcome(s: State, t: nat, nonempty: bool)
    requires Shaped(s) && t < |s.pcs| && s.pcs[t] == Start
    requires CircularLess(Wrap(s.optimistic - s.overcommit), s.tail) <==> nonempty
    ensures var first := Alone(s, t, 3);
            && Shaped(first) && |first.pcs| == |s.pcs|
            && (!nonempty ==>
                  first.pcs[t] == Idle && first.(pcs := s.pcs, h := s.h) == s && first.h.claims == s.h.claims)
            && (nonempty ==>
                  && Alone(first, t, 3).pcs[t] == Holding(s.head)
                  && Alone(first, t, 3).h.claims == s.h.claims + [s.head])
  {
    FirstCheckAlone(s, t);
    if nonempty {
      SecondCheckAlone(Alone(s, t, 3), t);
    }
  }

  lemma FirstCheckOutcome(s: State)
    requires Inv(s) && Quiescent(s)
    ensures CircularLess(Wrap(s.optimistic - s.overcommit), s.tail)
       <==> 0 < Wrap(s.h.published - |s.h.claims|) < HALF
  {
    CountNone(Undecided, s.pcs);
    CountNone(Entitled, s.pcs);
    var f, c := |s.h.failed|, |s.h.claims|;
    WrapDifference(c + f, f);
    LessOrNot(c, s.h.published);
  }

  lemma LessOrNot(a: int, b: int)
    ensures CircularLess(Wrap(a), Wrap(b)) <==> Wrap(a - b) > HALF
    ensures CircularLess(Wrap(a), Wrap(b)) <==> 0 < Wrap(b - a) < HALF
  {
    WrapDifference(a, b);
    var q := (a - b) / TWO_64;
    assert b - a == (0 - q) * TWO_64 - Wrap(a - b);
    WrapShift(0 - Wrap(a - b), 0 - q);
  }

  // ---- Tickets that fit

  /** Ticket d fits: not counting recorded failures, fewer tickets precede it than elements were published. */
  ghost predicate Fits(h: History, d: nat) {
    d - |Below(h.failed, d)| < h.published
  }

  ghost predicate AllFit(h: History) {
    forall d | d in h.passed :: Fits(h, d)
  }

  /** By how much a ticket, less the failures its consumer had seen, reaches past the published elements. */
  function Excess(s: State, t: nat): int
    requires Shaped(s) && t < |s.pcs|
  {
    s.h.ticket[t] - s.h.seen[t] - s.h.published
  }

  /** Consumer t is about to check a ticket that is too high, and the wrapped comparison will let it pass. */
  predicate Fooled(s: State, t: nat) {
    Shaped(s) && t < |s.pcs| && s.pcs[t].HaveTicket? && Excess(s, t) >= 0 && Wrap(Excess(s, t)) > HALF
  }

  /** The second check passes exactly for a ticket within range, or when it is fooled. */
  lemma CheckExact(s: State, t: nat)
    requires Inv(s) && t < |s.pcs| && s.pcs[t].HaveTicket?
    ensures CircularLess(Wrap(s.pcs[t].count - s.pcs[t].overcommit), s.tail) <==> Wrap(Excess(s, t)) > HALF
    ensures CircularLess(Wrap(s.pcs[t].count - s.pcs[t].overcommit), s.tail) && !Fooled(s, t) ==> Excess(s, t) < 0
  {
    assert LocalInv(s, t);
    WrapDifference(s.h.ticket[t], s.h.seen[t]);
    var ticket: int := s.h.ticket[t];
    LessOrNot(ticket - s.h.seen[t], s.h.published);
  }

  /** A ticket that passes unless fooled fits: its stale overcommit counts only failures of smaller tickets. */
  lemma PassingFits(s: State, t: nat)
    requires Inv(s) && t < |s.pcs| && s.pcs[t].HaveTicket? && !Fooled(s, t)
    requires CircularLess(Wrap(s.pcs[t].count - s.pcs[t].overcommit), s.tail)
    ensures Fits(s.h, s.h.ticket[t])
  {
    assert LocalInv(s, t);
    CheckExact(s, t);
  }

  lemma MoreFailuresFit(h: History, h': History)
    requires AllFit(h) && h'.passed == h.passed && h.failed <= h'.failed && h.published <= h'.published
    ensures AllFit(h')
  {
    forall d | d in h'.passed ensures Fits(h', d) {
      assert Fits(h, d);
      SubsetSize(Below(h.failed, d), Below(h'.failed, d));
    }
  }

  lemma ApplyFits(s: State, a: Action)
    requires Inv(s) && AllFit(s.h) && Enabled(s, a) && (a.Advance? ==> !Fooled(s, a.consumer))
    ensures AllFit(Apply(s, a).h)
  {
    if a.Advance? && s.pcs[a.consumer].HaveTicket? {
      var pc := s.pcs[a.consumer];
      if CircularLess(Wrap(pc.count - pc.overcommit), s.tail) {
        PassingFits(s, a.consumer);
      }
    } else {
      MoreFailuresFit(s.h, Apply(s, a).h);
    }
  }

  /** No check of the run is fooled. */
  ghost predicate NeverFooled(s: State, actions: seq<Action>)
    requires Runs(s, actions)
    decreases |actions|
  {
    actions != [] ==>
      && (actions[0].Advance? ==> !Fooled(s, actions[0].consumer))
      && NeverFooled(Apply(s, actions[0]), actions[1..])
  }

  lemma {:induction false} RunFits(s: State, actions: seq<Action>)
    requires Inv(s) && AllFit(s.h) && Runs(s, actions) && NeverFooled(s, actions)
    ensures AllFit(After(s, actions).h)
    decreases |actions|
  {
    if actions != [] {
      ApplyInv(s, actions[0]);
      ApplyFits(s, actions[0]);
      RunFits(Apply(s, actions[0]), actions[1..]);
    }
  }

  /** If no check is fooled, the consumers that ever pass one never outnumber the published elements. */
  lemma NeverOverclaims(consumers: nat, actions: seq<Action>)
    requires Runs(Init(consumers), actions) && NeverFooled(Init(consumers), actions)
    ensures var h := After(Init(consumers), actions).h;
            |h.claims| <= |h.passed| <= h.published
  {
    InitInv(consumers);
    RunInv(Init(consumers), actions);
    RunFits(Init(consumers), actions);
    FittingTickets(After(Init(consumers), actions));
  }

  lemma FittingTickets(s: State)
    requires Inv(s) && AllFit(s.h)
    ensures |s.h.passed| <= s.h.published
  {
    var h := s.h;
    if h.passed != {} {
      var d := Largest(h.passed);
      assert Fits(h, d);
      assert h.passed == Below(h.passed, d) + {d};
      SizeBelow(Below(h.passed, d), Below(h.failed, d), d);
    }
  }

  /** If no check is fooled, an index is claimed only below the tail. */
  lemma ClaimsBelowTail(consumers: nat, actions: seq<Action>, t: nat)
    requires Runs(Init(consumers), actions) && NeverFooled(Init(consumers), actions)
    requires var s := After(Init(consumers), actions);
             t < |s.pcs| && s.pcs[t].Claiming?
    ensures var h := After(Init(consumers), actions).h;
            |h.claims| < h.published
  {
    var s := After(Init(consumers), actions);
    InitInv(consumers);
    RunInv(Init(consumers), actions);
    RunFits(Init(consumers), actions);
    FittingTickets(s);
    CountUpdate(Entitled, s.pcs, t, Idle);
  }

  // ---- Runs in which no check can be fooled

  predicate TicketsIssued(s: State) {
    Shaped(s) && forall t | 0 <= t < |s.pcs| :: s.h.ticket[t] <= s.h.tickets
  }

  lemma IssuedStep(s: State, a: Action)
    requires TicketsIssued(s) && Enabled(s, a)
    ensures TicketsIssued(Apply(s, a)) && Apply(s, a).h.tickets <= s.h.tickets + 1
  {
  }

  lemma {:induction false} ShortRunsFrom(s: State, actions: seq<Action>)
    requires TicketsIssued(s) && Runs(s, actions) && s.h.tickets + |actions| <= HALF
    ensures NeverFooled(s, actions)
    decreases |actions|
  {
    if actions != [] {
      IssuedStep(s, actions[0]);
      ShortRunsFrom(Apply(s, actions[0]), actions[1..]);
    }
  }

  /** In an interleaving of up to 2^63 steps no check is fooled. */
  lemma ShortRunsNeverFooled(consumers: nat, actions: seq<Action>)
    requires Runs(Init(consumers), actions) && |actions| <= HALF
    ensures NeverFooled(Init(consumers), actions)
  {
    ShortRunsFrom(Init(consumers), actions);
  }
}
