/**
  What whole calls of `get_or_add_implicit_producer` achieve (common/concurrentqueue.h), over the step system of module
  ImplicitProducerHash: a call that is over has returned the thread's producer, and a call that runs alone ends unless
  another thread stopped while it was replacing the table.
 */
module ImplicitProducerCalls {
  import opened ImplicitProducerHash
  import opened Wrappers

  // ---- Every call that is over has returned a producer

  function Calls(actions: seq<Action>, t: nat): nat {
    if actions == [] then 0 else (if actions[0] == Call(t) then 1 else 0) + Calls(actions[1..], t)
  }

  /** The number of calls of thread t so far: those that returned and the one under way. */
  function Begun(s: State, t: nat): nat
    requires Shaped(s) && t < |s.pcs|
  {
    |s.h.returned[t]| + if s.pcs[t].Idle? then 0 else 1
  }

  lemma ActionCounts(s: State, a: Action, t: nat)
    requires Enabled(s, a) && t < |s.pcs|
    ensures Shaped(Apply(s, a)) && |Apply(s, a).pcs| == |s.pcs|
    ensures Begun(Apply(s, a), t) == Begun(s, t) + if a == Call(t) then 1 else 0
  {
    if a.Advance? {
      StepShaped(s, a.thread);
      if a.thread == t {
        StepCounts(s, t);
      } else {
        StepFrame(s, a.thread);
      }
    }
  }

  lemma StepShaped(s: State, t: nat)
    requires Enabled(s, Advance(t))
    ensures Shaped(Step(s, t)) && |Step(s, t).pcs| == |s.pcs|
  {
    if s.pcs[t].Grow? {
      GrowShaped(s, t);
    } else if s.pcs[t].PlaceCas? || s.pcs[t].PlaceStore? {
      WriteShaped(s, t);
    } else {
      QuietShaped(s, t);
    }
  }

  lemma GrowShaped(s: State, t: nat)
    requires Enabled(s, Advance(t)) && s.pcs[t].Grow?
    ensures Shaped(Step(s, t)) && |Step(s, t).pcs| == |s.pcs|
  {
    assert |Step(s, t).tables[|s.tables|].entries| > 0;
  }

  lemma WriteShaped(s: State, t: nat)
    requires Enabled(s, Advance(t)) && (s.pcs[t].PlaceCas? || s.pcs[t].PlaceStore?)
    ensures Shaped(Step(s, t)) && |Step(s, t).pcs| == |s.pcs|
  {
  }

  lemma QuietShaped(s: State, t: nat)
    requires Enabled(s, Advance(t)) && !s.pcs[t].Grow? && !s.pcs[t].PlaceCas? && !s.pcs[t].PlaceStore?
    ensures Shaped(Step(s, t)) && |Step(s, t).pcs| == |s.pcs|
  {
    assert Step(s, t).tables == s.tables && Step(s, t).main == s.main;
  }

  /** A call goes on, or returns one result. */
  lemma StepCounts(s: State, t: nat)
    requires Enabled(s, Advance(t)) && Shaped(Step(s, t)) && |Step(s, t).pcs| == |s.pcs|
    ensures Begun(Step(s, t), t) == Begun(s, t)
  {
    if s.pcs[t].Search? {
      SearchCounts(s, t);
    } else {
      PlainCounts(s, t);
    }
  }

  lemma SearchCounts(s: State, t: nat)
    requires Enabled(s, Advance(t)) && Shaped(Step(s, t)) && |Step(s, t).pcs| == |s.pcs| && s.pcs[t].Search?
    ensures Begun(Step(s, t), t) == Begun(s, t)
  {
  }

  lemma PlainCounts(s: State, t: nat)
    requires Enabled(s, Advance(t)) && Shaped(Step(s, t)) && |Step(s, t).pcs| == |s.pcs| && !s.pcs[t].Search?
    ensures Begun(Step(s, t), t) == Begun(s, t)
  {
    if !s.pcs[t].PlaceStore? {
      GoesOn(s, t);
    }
  }

  lemma GoesOn(s: State, t: nat)
    requires Enabled(s, Advance(t)) && !s.pcs[t].Search? && !s.pcs[t].PlaceStore?
    ensures !Step(s, t).pcs[t].Idle? && Step(s, t).h.returned == s.h.returned
  {
  }

  lemma StepFrame(s: State, t: nat)
    requires Enabled(s, Advance(t)) && Shaped(Step(s, t)) && |Step(s, t).pcs| == |s.pcs|
    ensures var s' := Step(s, t);
            && s'.hashes == s.hashes && s'.pcs == s.pcs[t := s'.pcs[t]]
            && forall u | 0 <= u < |s.pcs| && u != t ::
                 s'.h.returned[u] == s.h.returned[u] && s'.h.producer[u] == s.h.producer[u]
  {
  }

  lemma {:induction false} CallsCounted(s: State, actions: seq<Action>, t: nat)
    requires Runs(s, actions) && Shaped(s) && t < |s.pcs|
    ensures Shaped(After(s, actions)) && |After(s, actions).pcs| == |s.pcs|
    ensures Begun(After(s, actions), t) == Begun(s, t) + Calls(actions, t)
    decreases |actions|
  {
    if actions != [] {
      ActionCounts(s, actions[0], t);
      CallsCounted(Apply(s, actions[0]), actions[1..], t);
    }
  }

  /**
    In every run a thread has got one result for each of its calls but the one under way, and all of them are its
    producer.
   */
  lemma EveryCallReturns(hashes: seq<nat>, capacity: nat, actions: seq<Action>, t: nat)
    requires capacity > 0 && Runs(Init(hashes, capacity), actions) && t < |hashes|
    ensures var s := After(Init(hashes, capacity), actions);
            && Shaped(s) && |s.pcs| == |hashes|
            && |s.h.returned[t]| + (if s.pcs[t].Idle? then 0 else 1) == Calls(actions, t)
            && forall i | 0 <= i < |s.h.returned[t]| :: s.h.producer[t] == Some(s.h.returned[t][i])
  {
    var s := After(Init(hashes, capacity), actions);
    CallsCounted(Init(hashes, capacity), actions, t);
    InitInv(hashes, capacity);
    RunInv(Init(hashes, capacity), actions);
    forall i | 0 <= i < |s.h.returned[t]| ensures s.h.producer[t] == Some(s.h.returned[t][i]) {
      assert s.h.returned[t][i] in s.h.returned[t];
    }
  }

  // ---- A call that runs alone ends

  function Repeat(t: nat, k: nat): seq<Action> {
    if k == 0 then [] else [Advance(t)] + Repeat(t, k - 1)
  }

  lemma Prepend(s: State, a: Action, rest: seq<Action>)
    requires Enabled(s, a) && Runs(Apply(s, a), rest)
    ensures Runs(s, [a] + rest) && After(s, [a] + rest) == After(Apply(s, a), rest)
  {
    assert ([a] + rest)[1..] == rest;
  }

  /** The resize lock is free, or thread t holds it. */
  predicate LockFree(s: State, t: nat)
    requires t < |s.pcs|
  {
    s.locked ==> Critical(s.pcs[t])
  }

  function Fits(s: State, m: nat, r: nat): bool {
    m < |s.tables| && r < Room(Capacity(s, m))
  }

  /** The stage of the call; a thread that runs alone passes through them in falling order. */
  function Stage(s: State, pc: Pc): nat {
    match pc
    case Idle => 0
    case PlaceStore(_, _, _) => 1
    case Place(_, _, _) => 2
    case PlaceCas(_, _, _) => 2
    case NewProducer(_, _) => 3
    case CheckRoom(m, r) => if Fits(s, m, r) then 4 else 10
    case Unlock(m, r) => if Fits(s, m, r) then 5 else 11
    case Grow(_, _) => 6
    case LoadMain(_) => 7
    case TryResize(_, _) => 8
    case Reload(_) => 9
    case CountUp(_) => 12
    case Search(_, _, _) => 13
    case Start => 14
  }

  /** The table that is being probed, counted from the oldest. */
  function Depth(pc: Pc): nat {
    match pc
    case Search(_, cur, _) => cur
    case _ => 0
  }

  /** What is left of the probing loop. */
  function Left(s: State, pc: Pc): int {
    match pc
    case Search(_, cur, j) => if cur < |s.tables| then 2 * (Capacity(s, cur) - j) else 0
    case Place(m, _, j) => if m < |s.tables| then 2 * (Capacity(s, m) - j) + 1 else 0
    case PlaceCas(m, _, j) => if m < |s.tables| then 2 * (Capacity(s, m) - j) else 0
    case _ => 0
  }

  /** The measure drops. */
  predicate Falls(s: State, pc: Pc, s': State, pc': Pc) {
    || Stage(s', pc') < Stage(s, pc)
    || (Stage(s', pc') == Stage(s, pc)
        && (Depth(pc') < Depth(pc) || (Depth(pc') == Depth(pc) && 0 <= Left(s', pc') < Left(s, pc))))
  }

  /** What the call of thread t leaves alone, and how it numbers a new producer. */
  predicate OwnStep(s: State, s': State, t: nat) {
    && Shaped(s) && Shaped(s') && t < |s.pcs| && s'.hashes == s.hashes
    && s'.pcs == s.pcs[t := s'.pcs[t]]
    && (forall u | 0 <= u < |s.pcs| && u != t ::
          s'.h.returned[u] == s.h.returned[u] && s'.h.producer[u] == s.h.producer[u])
    && (if s'.h.producer[t] == s.h.producer[t] then s'.created == s.created
        else s.h.producer[t] == None && s'.h.producer[t] == Some(s.created) && s'.created == s.created + 1)
  }

  lemma StepIsOwn(s: State, t: nat)
    requires Inv(s) && Enabled(s, Advance(t))
    ensures OwnStep(s, Step(s, t), t) && (LockFree(s, t) ==> LockFree(Step(s, t), t))
  {
    assert LocalInv(s, t);
    StepShaped(s, t);
    StepFrame(s, t);
  }

  lemma SearchFalls(s: State, t: nat)
    requires Inv(s) && Enabled(s, Advance(t)) && s.pcs[t].Search? && Inv(Step(s, t))
    ensures Falls(s, s.pcs[t], Step(s, t), Step(s, t).pcs[t])
  {
    assert LocalInv(s, t) && TableInv(s, s.pcs[t].cur);
    assert LocalInv(Step(s, t), t);
  }

  lemma PlaceFalls(s: State, t: nat)
    requires Inv(s) && Enabled(s, Advance(t)) && (s.pcs[t].Place? || s.pcs[t].PlaceCas?) && Inv(Step(s, t))
    ensures Falls(s, s.pcs[t], Step(s, t), Step(s, t).pcs[t])
  {
    assert LocalInv(s, t);
    assert LocalInv(Step(s, t), t);
  }

  lemma StepFalls(s: State, t: nat)
    requires Inv(s) && Enabled(s, Advance(t)) && LockFree(s, t) && Inv(Step(s, t))
    ensures Falls(s, s.pcs[t], Step(s, t), Step(s, t).pcs[t])
  {
    if s.pcs[t].Search? {
      SearchFalls(s, t);
    } else if s.pcs[t].Place? || s.pcs[t].PlaceCas? {
      PlaceFalls(s, t);
    } else {
      PlainFalls(s, t);
    }
  }

  lemma PlainFalls(s: State, t: nat)
    requires Enabled(s, Advance(t)) && LockFree(s, t)
    requires !s.pcs[t].Search? && !s.pcs[t].Place? && !s.pcs[t].PlaceCas?
    ensures Stage(Step(s, t), Step(s, t).pcs[t]) < Stage(s, s.pcs[t])
  {
    if s.pcs[t].TryResize? || s.pcs[t].LoadMain? || s.pcs[t].Grow? {
      ResizeFalls(s, t);
    }
  }

  /** A table that is less than half counted up to, or was just made for the count, has room. */
  lemma ResizeFalls(s: State, t: nat)
    requires Enabled(s, Advance(t)) && LockFree(s, t)
    requires s.pcs[t].TryResize? || s.pcs[t].LoadMain? || s.pcs[t].Grow?
    ensures Stage(Step(s, t), Step(s, t).pcs[t]) < Stage(s, s.pcs[t])
  {
  }

  /** The call works on the newest table. */
  predicate OnMain(s: State, pc: Pc) {
    match pc
    case Search(m, _, _) => m == s.main
    case CountUp(m) => m == s.main
    case TryResize(m, _) => m == s.main
    case Grow(m, _) => m == s.main
    case Unlock(m, _) => m == s.main
    case CheckRoom(m, _) => m == s.main
    case NewProducer(m, _) => m == s.main
    case Place(m, _, _) => m == s.main
    case PlaceCas(m, _, _) => m == s.main
    case PlaceStore(m, _, _) => m == s.main
    case _ => true
  }

  /** The thread has an entry in the newest table, so that its next call finds it there. */
  predicate InMain(s: State, t: nat) {
    s.main < |s.tables| && !Absent(s.tables[s.main].entries, t)
  }

  /** The last step of a call returns the producer; no other step returns anything. */
  predicate Returns(s: State, s': State, t: nat) {
    && Shaped(s) && Shaped(s') && t < |s.pcs| && t < |s'.pcs|
    && if s'.pcs[t].Idle? then
         s'.h.producer[t].Some? && s'.h.returned[t] == s.h.returned[t] + [s'.h.producer[t].value]
       else s'.h.returned[t] == s.h.returned[t]
  }

  lemma StepReturns(s: State, t: nat)
    requires Inv(s) && Enabled(s, Advance(t)) && Inv(Step(s, t))
    ensures Returns(s, Step(s, t), t)
  {
    assert LocalInv(s, t);
    if s.pcs[t].Search? {
      var Search(m, cur, j) := s.pcs[t];
      var i := Slot(s.hashes[t], Capacity(s, cur), j);
      if KeyAt(s, cur, i) == t + 1 {
        FoundOwn(s, t, cur, i);
      }
    }
  }

  lemma StepOnMain(s: State, t: nat)
    requires Inv(s) && Enabled(s, Advance(t)) && OnMain(s, s.pcs[t])
    ensures OnMain(Step(s, t), Step(s, t).pcs[t])
    ensures Step(s, t).pcs[t].Idle? ==> InMain(Step(s, t), t)
  {
    assert LocalInv(s, t);
    if s.pcs[t].Search? {
      var Search(m, cur, j) := s.pcs[t];
      var i := Slot(s.hashes[t], Capacity(s, cur), j);
      assert KeyAt(s, cur, i) == t + 1 ==> !Absent(s.tables[cur].entries, t);
    } else if s.pcs[t].PlaceStore? {
      assert Step(s, t).tables[s.pcs[t].main].entries[s.pcs[t].slot].key == t + 1;
    }
  }

  /** The call of thread t is over: it returned its producer, a new one exactly if it had none. */
  predicate Answered(s: State, s': State, t: nat) {
    && OwnStep(s, s', t) && s'.pcs[t].Idle?
    && s'.h.producer[t].Some? && s'.h.returned[t] == s.h.returned[t] + [s'.h.producer[t].value]
  }

  lemma AnsweredLater(s: State, s': State, end: State, t: nat)
    requires OwnStep(s, s', t) && Returns(s, s', t) && !s'.pcs[t].Idle? && Answered(s', end, t)
    ensures Answered(s, end, t)
  {
  }

  lemma StepAlone(s: State, t: nat)
    requires Inv(s) && t < |s.pcs| && !s.pcs[t].Idle? && LockFree(s, t)
    ensures Enabled(s, Advance(t)) && Inv(Step(s, t)) && OwnStep(s, Step(s, t), t) && LockFree(Step(s, t), t)
    ensures Falls(s, s.pcs[t], Step(s, t), Step(s, t).pcs[t]) && Returns(s, Step(s, t), t)
    ensures OnMain(s, s.pcs[t]) ==>
              OnMain(Step(s, t), Step(s, t).pcs[t]) && (Step(s, t).pcs[t].Idle? ==> InMain(Step(s, t), t))
  {
    assert LocalInv(s, t);
    StepInv(s, t);
    StepIsOwn(s, t);
    StepFalls(s, t);
    StepReturns(s, t);
    if OnMain(s, s.pcs[t]) {
      StepOnMain(s, t);
    }
  }

  lemma {:induction false} EndsAlone(s: State, t: nat) returns (k: nat)
    requires Inv(s) && t < |s.pcs| && !s.pcs[t].Idle? && LockFree(s, t)
    ensures Runs(s, Repeat(t, k)) && Answered(s, After(s, Repeat(t, k)), t)
    ensures OnMain(s, s.pcs[t]) ==> InMain(After(s, Repeat(t, k)), t)
    decreases Stage(s, s.pcs[t]), Depth(s.pcs[t]), Left(s, s.pcs[t])
  {
    StepAlone(s, t);
    var s' := Step(s, t);
    if s'.pcs[t].Idle? {
      k := 0;
    } else {
      k := EndsAlone(s', t);
      AnsweredLater(s, s', After(s', Repeat(t, k)), t);
    }
    Prepend(s, Advance(t), Repeat(t, k));
    k := k + 1;
  }

  /** A call under way ends when its thread runs alone, unless another thread stopped with the resize lock. */
  lemma LoneRest(s: State, t: nat) returns (k: nat)
    requires Reachable(s) && t < |s.pcs| && !s.pcs[t].Idle? && LockFree(s, t)
    ensures Runs(s, Repeat(t, k)) && Answered(s, After(s, Repeat(t, k)), t)
  {
    ReachableInv(s);
    k := EndsAlone(s, t);
  }

  /** Where the condition matters: a call that does not fit the newest table waits for whoever holds the lock. */
  lemma WaitsForResize(s: State, t: nat)
    requires Shaped(s) && t < |s.pcs| && s.locked
    requires s.pcs[t].TryResize? && s.pcs[t].main == s.main && !Fits(s, s.main, s.pcs[t].rank)
    ensures Runs(s, Repeat(t, 3)) && After(s, Repeat(t, 3)) == s
  {
    var r := s.pcs[t].rank;
    var s1, s2 := At(s, t, CheckRoom(s.main, r)), At(s, t, Reload(r));
    assert Apply(s, Advance(t)) == s1 && Apply(s1, Advance(t)) == s2;
    assert Apply(s2, Advance(t)) == s by {
      assert s2.pcs[t := TryResize(s.main, r)] == s.pcs;
    }
    Prepend(s2, Advance(t), Repeat(t, 0));
    Prepend(s1, Advance(t), Repeat(t, 1));
    Prepend(s, Advance(t), Repeat(t, 2));
  }

  /**
    A call that runs alone from any reachable state with the resize lock free, the other threads stopped anywhere: it
    ends and returns the thread's producer, or the next new one if it had none, and leaves the thread in the newest
    table.
   */
  lemma LoneCall(s: State, t: nat) returns (k: nat, p: Producer)
    requires Reachable(s) && Enabled(s, Call(t)) && !s.locked
    ensures Runs(s, [Call(t)] + Repeat(t, k))
    ensures p == match s.h.producer[t] { case Some(own) => own case None => s.created }
    ensures var s' := After(s, [Call(t)] + Repeat(t, k));
            && OwnStep(s, s', t) && s'.pcs == s.pcs && InMain(s', t)
            && s'.h.returned[t] == s.h.returned[t] + [p] && s'.h.producer[t] == Some(p)
  {
    ReachableInv(s);
    assert LocalInv(s, t);
    MoveStep(s, t, Start);
    var s1 := At(s, t, Start);
    k := EndsAlone(s1, t);
    Prepend(s, Call(t), Repeat(t, k));
    var s' := After(s1, Repeat(t, k));
    p := s'.h.producer[t].value;
    assert s'.pcs == s.pcs;
  }
}
