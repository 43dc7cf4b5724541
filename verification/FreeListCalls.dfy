/**
  What whole calls of the free list achieve (common/concurrentqueue.h, `FreeList`), over the step system of module
  FreeList: a call that runs alone ends, wherever the other threads stopped, and `try_get` comes back without a block
  only if the list was empty while it ran.
 */
module FreeListCalls {
  import opened FreeList
  import opened Wrappers

  function Repeat(t: nat, k: nat): seq<Action> {
    if k == 0 then [] else [Advance(t)] + Repeat(t, k - 1)
  }

  lemma Prepend(s: State, a: Action, rest: seq<Action>)
    requires Enabled(s, a) && Runs(Apply(s, a), rest)
    ensures Runs(s, [a] + rest) && After(s, [a] + rest) == After(Apply(s, a), rest)
  {
    assert ([a] + rest)[1..] == rest;
  }

  // ---- Every call that runs alone ends

  /** How many steps thread t may still take on its own. */
  ghost function StepsLeft(s: State, pc: Pc): nat {
    match pc
    case Idle => 0
    case GetDropTwo(_) => 1
    case GetCasHead(h, _) => if s.head == Some(h) then 2 else if LastWaiting(s, h) then 16 else 7
    case GetLoadNext(h) => if s.head == Some(h) then 3 else if LastWaiting(s, h) then 17 else 8
    case GetCasRefs(h, r) => if h !in s.refs || s.refs[h] != r then 7 else if s.head == Some(h) then 4 else 9
    case GetLoadRefs(h) => if s.head == Some(h) then 5 else 10
    case GetLoadHead => 6
    case GetDropRef(h, newHead) => if LastWaiting(s, h) then 15 else if newHead == s.head then 6 else 11
    case AddFlag(_) => 15
    case ReaddLoadHead(_, _) => 14
    case ReaddStoreNext(_, h, _) => if h == s.head then 13 else 17
    case ReaddStoreRefs(_, h, _) => if h == s.head then 12 else 16
    case ReaddCasHead(_, h, _) => if h == s.head then 11 else 15
    case ReaddGiveUp(_, h, _) => if h == s.head then 14 else 18
  }

  /** The flag is set and one reference is left: whoever drops it puts the block back. */
  predicate LastWaiting(s: State, h: Node) {
    h in s.refs && s.refs[h] == SHOULD_BE_ON_FREELIST + 1
  }

  lemma StepsBounded(s: State, pc: Pc)
    ensures StepsLeft(s, pc) <= 18
  {
  }

  /** The head's counter has no flag and is not zero. */
  lemma HeadCounted(s: State, v: View, h: Node)
    requires Inv(s, v) && s.head == Some(h)
    ensures v.list != [] && v.list[0] == h && h in s.refs && h in s.next
    ensures s.refs[h] == 1 + Total(Ref, s.pcs, h) && 0 < s.refs[h] < SHOULD_BE_ON_FREELIST
    ensures s.refs[h] % SHOULD_BE_ON_FREELIST == s.refs[h]
  {
    assert multiset(v.list)[h] > 0;
    assert BlockInv(s, v, h);
    ReaddIsCustody(s.pcs, h);
    NoOverflow(s, v, h);
  }

  lemma StepsDrop(s: State, v: View, t: nat)
    requires Inv(s, v) && Enabled(s, Advance(t))
    ensures StepsLeft(Step(s, t), Step(s, t).pcs[t]) < StepsLeft(s, s.pcs[t])
  {
    assert LocalInv(s, s.pcs[t]);
    match s.pcs[t]
    case GetLoadRefs(h) => LoadRefsDrops(s, v, t, h);
    case GetCasRefs(h, r) => CasRefsDrops(s, v, t, h, r);
    case _ => OtherDrops(s, t);
  }

  lemma LoadRefsDrops(s: State, v: View, t: nat, h: Node)
    requires Inv(s, v) && Enabled(s, Advance(t)) && s.pcs[t] == GetLoadRefs(h)
    ensures StepsLeft(Step(s, t), Step(s, t).pcs[t]) < StepsLeft(s, s.pcs[t])
  {
    if s.head == Some(h) {
      HeadCounted(s, v, h);
    }
  }

  lemma CasRefsDrops(s: State, v: View, t: nat, h: Node, r: nat)
    requires Inv(s, v) && Enabled(s, Advance(t)) && s.pcs[t] == GetCasRefs(h, r) && LocalInv(s, s.pcs[t])
    ensures StepsLeft(Step(s, t), Step(s, t).pcs[t]) < StepsLeft(s, s.pcs[t])
  {
    if s.refs[h] == r {
      NoOverflow(s, v, h);
      NotLastWaiting(r);
    }
  }

  lemma OtherDrops(s: State, t: nat)
    requires Enabled(s, Advance(t)) && !s.pcs[t].GetLoadRefs? && !s.pcs[t].GetCasRefs?
    ensures StepsLeft(Step(s, t), Step(s, t).pcs[t]) < StepsLeft(s, s.pcs[t])
  {
  }

  /** A counter with references in it does not become a last waiting one. */
  lemma NotLastWaiting(r: nat)
    requires r < TWO_32 && r % SHOULD_BE_ON_FREELIST != 0
    ensures Add32(r, 1) != SHOULD_BE_ON_FREELIST + 1
  {
  }

  predicate Back(s: State, t: nat) {
    t < |s.pcs| && s.pcs[t].Idle?
  }

  lemma StepAlone(s: State, v: View, t: nat) returns (v': View)
    requires Inv(s, v) && t < |s.pcs| && !s.pcs[t].Idle?
    ensures Enabled(s, Advance(t)) && Inv(Step(s, t), v') && |Step(s, t).pcs| == |s.pcs|
    ensures StepsLeft(Step(s, t), Step(s, t).pcs[t]) < StepsLeft(s, s.pcs[t])
  {
    assert LocalInv(s, s.pcs[t]);
    StepsDrop(s, v, t);
    v' := StepInv(s, v, t);
  }

  lemma {:induction false} EndsAlone(s: State, v: View, t: nat) returns (k: nat)
    requires Inv(s, v) && t < |s.pcs|
    ensures k <= StepsLeft(s, s.pcs[t]) && Runs(s, Repeat(t, k)) && Back(After(s, Repeat(t, k)), t)
    decreases StepsLeft(s, s.pcs[t])
  {
    k := 0;
    if !s.pcs[t].Idle? {
      var v' := StepAlone(s, v, t);
      var s' := Step(s, t);
      k := EndsAlone(s', v', t);
      Prepend(s, Advance(t), Repeat(t, k));
      k := k + 1;
    }
  }

  /** From every reachable state, a thread that runs alone is back from its call within 18 steps. */
  lemma LoneCallEnds(s: State, t: nat) returns (k: nat)
    requires Reachable(s) && t < |s.pcs|
    ensures k <= 18 && Runs(s, Repeat(t, k)) && Back(After(s, Repeat(t, k)), t)
  {
    var v := ReachableInv(s);
    k := EndsAlone(s, v, t);
    StepsBounded(s, s.pcs[t]);
  }

  // ---- try_get

  /** The thread is inside `try_get`. */
  predicate InGet(pc: Pc) {
    match pc
    case Idle => false
    case AddFlag(_) => false
    case ReaddLoadHead(_, ret) => ret.ToGetLoop?
    case ReaddStoreNext(_, _, ret) => ret.ToGetLoop?
    case ReaddStoreRefs(_, _, ret) => ret.ToGetLoop?
    case ReaddCasHead(_, _, ret) => ret.ToGetLoop?
    case ReaddGiveUp(_, _, ret) => ret.ToGetLoop?
    case _ => true
  }

  /** The thread has already read a null head and will return null. */
  predicate SawNull(pc: Pc) {
    match pc
    case GetDropRef(_, newHead) => newHead == None
    case ReaddLoadHead(_, ret) => ret == ToGetLoop(None)
    case ReaddStoreNext(_, _, ret) => ret == ToGetLoop(None)
    case ReaddStoreRefs(_, _, ret) => ret == ToGetLoop(None)
    case ReaddCasHead(_, _, ret) => ret == ToGetLoop(None)
    case ReaddGiveUp(_, _, ret) => ret == ToGetLoop(None)
    case _ => false
  }

  /** Thread t begins no call. */
  predicate NoCall(actions: seq<Action>, t: nat) {
    forall i | 0 <= i < |actions| :: !(actions[i].BeginAdd? || actions[i].BeginGet?) || actions[i].thread != t
  }

  /** The list is empty before some step or at the end. */
  predicate EmptySometime(s: State, actions: seq<Action>)
    requires Runs(s, actions)
    decreases |actions|
  {
    s.head == None || (actions != [] && EmptySometime(Apply(s, actions[0]), actions[1..]))
  }

  /** The blocks that steps of thread t hand to their clients. */
  function Handed(s: State, actions: seq<Action>, t: nat): multiset<Node>
    requires Runs(s, actions)
    decreases |actions|
  {
    if actions == [] then multiset{}
    else (if actions[0] == Advance(t) then Apply(s, actions[0]).owned - s.owned else multiset{})
         + Handed(Apply(s, actions[0]), actions[1..], t)
  }

  /** What one step of thread t inside `try_get` does. */
  lemma GetStep(s: State, t: nat)
    requires Enabled(s, Advance(t)) && InGet(s.pcs[t])
    ensures var s' := Step(s, t);
            if InGet(s'.pcs[t]) then s'.owned == s.owned && (SawNull(s'.pcs[t]) ==> SawNull(s.pcs[t]) || s.head == None)
            else
              && s'.pcs[t].Idle?
              && ((exists n :: s'.owned == s.owned + multiset{n})
                  || (s'.owned == s.owned && (SawNull(s.pcs[t]) || s.head == None)))
  {
  }

  /** What is handed out by the rest of a call, given whether the list was empty meanwhile. */
  ghost predicate Result(pc: Pc, handed: multiset<Node>, empty: bool) {
    if pc.Idle? then handed == multiset{}
    else
      || (exists n :: handed == multiset{n})
      || (handed == multiset{} && (SawNull(pc) || empty))
  }

  ghost predicate Outcome(s: State, actions: seq<Action>, t: nat)
    requires Runs(s, actions) && t < |s.pcs|
  {
    Result(s.pcs[t], Handed(s, actions, t), EmptySometime(s, actions))
  }

  lemma NoCallRest(actions: seq<Action>, t: nat)
    requires NoCall(actions, t) && actions != []
    ensures NoCall(actions[1..], t) && actions[0] != BeginGet(t) && !(actions[0].BeginAdd? && actions[0].thread == t)
  {
    forall i | 0 <= i < |actions[1..]|
      ensures !(actions[1..][i].BeginAdd? || actions[1..][i].BeginGet?) || actions[1..][i].thread != t
    {
      assert actions[1..][i] == actions[i + 1];
    }
  }

  /** One step of the call, followed by the rest. */
  lemma ResultBefore(s: State, t: nat, handed: multiset<Node>, empty: bool)
    requires Enabled(s, Advance(t)) && InGet(s.pcs[t])
    requires |Step(s, t).pcs| == |s.pcs| && Result(Step(s, t).pcs[t], handed, empty)
    ensures Result(s.pcs[t], Step(s, t).owned - s.owned + handed, empty || s.head == None)
  {
    var gain := Step(s, t).owned - s.owned;
    GetStep(s, t);
    if Step(s, t).owned == s.owned {
      assert gain + handed == handed;
    } else {
      var n :| Step(s, t).owned == s.owned + multiset{n};
      assert gain + handed == multiset{n};
    }
  }

  lemma OthersStep(s: State, a: Action, t: nat)
    requires Enabled(s, a) && t < |s.pcs| && (a.Create? || a.thread != t)
    ensures |Apply(s, a).pcs| == |s.pcs| && Apply(s, a).pcs[t] == s.pcs[t]
  {
  }

  lemma OutcomeBefore(s: State, actions: seq<Action>, t: nat)
    requires Runs(s, actions) && actions != [] && t < |s.pcs| && NoCall(actions, t)
    requires InGet(s.pcs[t]) || s.pcs[t].Idle?
    requires |Apply(s, actions[0]).pcs| == |s.pcs| && Outcome(Apply(s, actions[0]), actions[1..], t)
    ensures Outcome(s, actions, t)
  {
    NoCallRest(actions, t);
    var handed := Handed(Apply(s, actions[0]), actions[1..], t);
    var empty := EmptySometime(Apply(s, actions[0]), actions[1..]);
    assert EmptySometime(s, actions) <==> s.head == None || empty;
    if actions[0] == Advance(t) {
      ResultBefore(s, t, handed, empty);
    } else {
      assert multiset{} + handed == handed;
      OthersStep(s, actions[0], t);
    }
  }

  lemma StillInGet(s: State, a: Action, t: nat)
    requires Enabled(s, a) && t < |s.pcs| && (InGet(s.pcs[t]) || s.pcs[t].Idle?)
    requires a != BeginGet(t) && !(a.BeginAdd? && a.thread == t)
    ensures |Apply(s, a).pcs| == |s.pcs| && (InGet(Apply(s, a).pcs[t]) || Apply(s, a).pcs[t].Idle?)
  {
    if a == Advance(t) {
      GetStep(s, t);
    } else {
      OthersStep(s, a, t);
    }
  }

  lemma {:induction false} GetOutcome(s: State, actions: seq<Action>, t: nat)
    requires Runs(s, actions) && t < |s.pcs| && NoCall(actions, t) && Back(After(s, actions), t)
    requires InGet(s.pcs[t]) || s.pcs[t].Idle?
    ensures Outcome(s, actions, t)
    decreases |actions|
  {
    if actions != [] {
      NoCallRest(actions, t);
      StillInGet(s, actions[0], t);
      GetOutcome(Apply(s, actions[0]), actions[1..], t);
      OutcomeBefore(s, actions, t);
    }
  }

  /**
    Every call of `try_get`, however the other threads interleave with it, hands its client exactly one block, or none
    and then the list was empty at some moment of the call.
   */
  lemma TryGet(s: State, actions: seq<Action>, t: nat)
    requires Enabled(s, BeginGet(t)) && Runs(Apply(s, BeginGet(t)), actions) && NoCall(actions, t)
    requires Back(After(Apply(s, BeginGet(t)), actions), t)
    ensures var s' := Apply(s, BeginGet(t));
            || (exists n :: Handed(s', actions, t) == multiset{n})
            || (Handed(s', actions, t) == multiset{} && EmptySometime(s', actions))
  {
    GetOutcome(Apply(s, BeginGet(t)), actions, t);
  }

  /** The state after thread t has taken the head of the list. */
  function Took(s: State, h: Node): State
    requires h in s.refs && h in s.next && s.refs[h] > 0
  {
    s.(head := s.next[h], refs := s.refs[h := s.refs[h] - 1], owned := s.owned + multiset{h})
  }

  lemma GetRun(s: State, t: nat, h: Node)
    requires Enabled(s, BeginGet(t)) && s.head == Some(h) && h in s.refs && h in s.next
    requires 0 < s.refs[h] < SHOULD_BE_ON_FREELIST
    ensures Runs(s, [BeginGet(t)] + Repeat(t, 6)) && After(s, [BeginGet(t)] + Repeat(t, 6)) == Took(s, h)
  {
    var r := s.refs[h];
    var s1 := At(s, t, GetLoadHead);
    var s2 := At(s, t, GetLoadRefs(h));
    assert Apply(s1, Advance(t)) == s2;
    var s3 := At(s, t, GetCasRefs(h, r));
    assert Apply(s2, Advance(t)) == s3;
    Exact(r, 1);
    var s4 := At(s, t, GetLoadNext(h)).(refs := s.refs[h := r + 1]);
    assert Apply(s3, Advance(t)) == s4;
    GetRunEnd(s4, t, h);
    assert s4.refs[h := r - 1] == s.refs[h := r - 1] && s4.pcs[t := Idle] == s.pcs;
    Prepend(s3, Advance(t), Repeat(t, 3));
    Prepend(s2, Advance(t), Repeat(t, 4));
    Prepend(s1, Advance(t), Repeat(t, 5));
    Prepend(s, BeginGet(t), Repeat(t, 6));
  }

  /** The rest of the way once the thread holds a reference to the head. */
  lemma GetRunEnd(s: State, t: nat, h: Node)
    requires t < |s.pcs| && s.pcs[t] == GetLoadNext(h) && s.head == Some(h) && h in s.refs && h in s.next
    requires 2 <= s.refs[h] <= SHOULD_BE_ON_FREELIST
    ensures Runs(s, Repeat(t, 3))
    ensures After(s, Repeat(t, 3))
         == At(s, t, Idle).(head := s.next[h], refs := s.refs[h := s.refs[h] - 2], owned := s.owned + multiset{h})
  {
    var s1 := At(s, t, GetCasHead(h, s.next[h]));
    assert Apply(s, Advance(t)) == s1;
    var s2 := At(s, t, GetDropTwo(h)).(head := s.next[h]);
    assert Apply(s1, Advance(t)) == s2;
    Exact(s.refs[h], -2);
    Prepend(s2, Advance(t), Repeat(t, 0));
    Prepend(s1, Advance(t), Repeat(t, 1));
    Prepend(s, Advance(t), Repeat(t, 2));
  }

  /**
    `try_get` run alone from any reachable state, the other threads stopped anywhere: an empty list is left alone; from
    any other list the client gets the first block, and the rest stays linked.
   */
  lemma LoneGet(s: State, t: nat, list: seq<Node>)
    requires Reachable(s) && t < |s.pcs| && s.pcs[t].Idle? && Chain(s.head, s.next, list)
    ensures var run := [BeginGet(t)] + Repeat(t, if list == [] then 1 else 6);
            && Runs(s, run)
            && var s' := After(s, run);
               && s'.pcs == s.pcs && s'.next == s.next && Chain(s'.head, s'.next, if list == [] then [] else list[1..])
               && s'.owned == (if list == [] then s.owned else s.owned + multiset{list[0]})
               && (list == [] ==> s' == s)
  {
    var v := ReachableInv(s);
    if list == [] {
      var s1 := At(s, t, GetLoadHead);
      assert Apply(s1, Advance(t)) == s by {
        assert s1.pcs[t := Idle] == s.pcs;
      }
      Prepend(s1, Advance(t), Repeat(t, 0));
      Prepend(s, BeginGet(t), Repeat(t, 1));
    } else {
      HeadCounted(s, v, list[0]);
      GetRun(s, t, list[0]);
    }
  }

  // ---- add

  /** The state after thread t has linked block n, which had no references. */
  function Linked(s: State, n: Node): State {
    s.(head := Some(n), next := s.next[n := s.head], refs := s.refs[n := 1])
  }

  /** Linking a block whose counter is zero, or holds the flag alone. */
  lemma ReaddRun(s: State, t: nat, n: Node, ret: Return)
    requires t < |s.pcs| && s.pcs[t] == ReaddLoadHead(n, ret) && n in s.refs
    ensures Runs(s, Repeat(t, 4)) && After(s, Repeat(t, 4)) == At(Linked(s, n), t, Resume(ret))
  {
    var s1 := At(s, t, ReaddStoreNext(n, s.head, ret));
    assert Apply(s, Advance(t)) == s1;
    var s2 := At(s, t, ReaddStoreRefs(n, s.head, ret)).(next := s.next[n := s.head]);
    assert Apply(s1, Advance(t)) == s2;
    var s3 := At(s, t, ReaddCasHead(n, s.head, ret)).(next := s.next[n := s.head], refs := s.refs[n := 1]);
    assert Apply(s2, Advance(t)) == s3;
    assert Apply(s3, Advance(t)) == At(Linked(s, n), t, Resume(ret));
    Prepend(s3, Advance(t), Repeat(t, 0));
    Prepend(s2, Advance(t), Repeat(t, 1));
    Prepend(s1, Advance(t), Repeat(t, 2));
    Prepend(s, Advance(t), Repeat(t, 3));
  }

  /** An owned block is neither linked nor flagged, and its counter holds the references of the threads alone. */
  lemma OwnedCounted(s: State, v: View, n: Node)
    requires Inv(s, v) && n in s.owned
    ensures n in s.refs && n !in v.list && s.refs[n] == Total(Ref, s.pcs, n) < SHOULD_BE_ON_FREELIST
  {
    assert BlockInv(s, v, n);
    assert n in v.list ==> multiset(v.list)[n] > 0;
    ReaddIsCustody(s.pcs, n);
    NoOverflow(s, v, n);
  }

  /**
    `add` run alone from any reachable state: a block that no thread refers to becomes the first of the list; any other
    one is left with its flag set, for the thread that drops the last reference.
   */
  lemma LoneAdd(s: State, t: nat, n: Node, list: seq<Node>)
    requires Reachable(s) && Enabled(s, BeginAdd(t, n)) && Chain(s.head, s.next, list)
    ensures n in s.refs
    ensures var run := [BeginAdd(t, n)] + Repeat(t, if s.refs[n] == 0 then 5 else 1);
            && Runs(s, run)
            && var s' := After(s, run);
               && s'.pcs == s.pcs && s'.owned == s.owned - multiset{n}
               && Chain(s'.head, s'.next, if s.refs[n] == 0 then [n] + list else list)
               && s'.refs == s.refs[n := if s.refs[n] == 0 then 1 else SHOULD_BE_ON_FREELIST + s.refs[n]]
  {
    var v := ReachableInv(s);
    OwnedCounted(s, v, n);
    ChainUnique(s.head, s.next, list, v.list);
    if s.refs[n] == 0 {
      AddRun(s, t, n, list);
    } else {
      FlagRun(s, t, n);
    }
  }

  lemma FlagRun(s: State, t: nat, n: Node)
    requires Enabled(s, BeginAdd(t, n)) && n in s.refs && 0 < s.refs[n] < SHOULD_BE_ON_FREELIST
    ensures var run := [BeginAdd(t, n)] + Repeat(t, 1);
            && Runs(s, run)
            && After(s, run)
            == s.(owned := s.owned - multiset{n}, refs := s.refs[n := SHOULD_BE_ON_FREELIST + s.refs[n]])
  {
    Exact(s.refs[n], SHOULD_BE_ON_FREELIST);
    var s1 := At(s, t, AddFlag(n)).(owned := s.owned - multiset{n});
    assert Step(s1, t).pcs == s.pcs;
    Prepend(s1, Advance(t), Repeat(t, 0));
    Prepend(s, BeginAdd(t, n), Repeat(t, 1));
  }

  lemma AddRun(s: State, t: nat, n: Node, list: seq<Node>)
    requires Enabled(s, BeginAdd(t, n)) && n in s.refs && s.refs[n] == 0
    requires Chain(s.head, s.next, list) && n !in list
    ensures var run := [BeginAdd(t, n)] + Repeat(t, 5);
            && Runs(s, run)
            && var s' := After(s, run);
               && s'.pcs == s.pcs && s'.owned == s.owned - multiset{n} && s'.refs == s.refs[n := 1]
               && Chain(s'.head, s'.next, [n] + list)
  {
    Exact(0, SHOULD_BE_ON_FREELIST);
    var s1 := At(s, t, AddFlag(n)).(owned := s.owned - multiset{n});
    var s2 := At(s1, t, ReaddLoadHead(n, ToCaller)).(refs := s.refs[n := SHOULD_BE_ON_FREELIST]);
    assert Apply(s1, Advance(t)) == s2;
    ReaddRun(s2, t, n, ToCaller);
    ChainFrame(s.head, s.next, list, n, s.head);
    assert ([n] + list)[1..] == list;
    var s' := At(Linked(s2, n), t, Idle);
    assert s'.pcs == s.pcs;
    Prepend(s1, Advance(t), Repeat(t, 4));
    Prepend(s, BeginAdd(t, n), Repeat(t, 5));
  }

  /** The thread that drops the last reference to a flagged block links it, and goes on with the head it read. */
  lemma LastDropLinks(s: State, t: nat, list: seq<Node>)
    requires Reachable(s) && t < |s.pcs| && s.pcs[t].GetDropRef? && LastWaiting(s, s.pcs[t].prevHead)
    requires Chain(s.head, s.next, list)
    ensures Runs(s, Repeat(t, 5))
    ensures var s', h := After(s, Repeat(t, 5)), s.pcs[t].prevHead;
            && s'.pcs == s.pcs[t := GetLoop(s.pcs[t].newHead)] && s'.owned == s.owned
            && Chain(s'.head, s'.next, [h] + list) && s'.refs == s.refs[h := 1]
  {
    var v := ReachableInv(s);
    var GetDropRef(h, newHead) := s.pcs[t];
    assert BlockInv(s, v, h);
    TotalAtLeast(Ref, s.pcs, t, h);
    ReaddIsCustody(s.pcs, h);
    NoOverflow(s, v, h);
    ChainUnique(s.head, s.next, list, v.list);
    assert h !in list by {
      assert multiset(v.list)[h] == 0;
    }
    DropRun(s, t, h, newHead, list);
  }

  lemma DropRun(s: State, t: nat, h: Node, newHead: Ptr, list: seq<Node>)
    requires t < |s.pcs| && s.pcs[t] == GetDropRef(h, newHead) && LastWaiting(s, h)
    requires Chain(s.head, s.next, list) && h !in list
    ensures Runs(s, Repeat(t, 5))
    ensures var s' := After(s, Repeat(t, 5));
            && s'.pcs == s.pcs[t := GetLoop(newHead)] && s'.owned == s.owned
            && Chain(s'.head, s'.next, [h] + list) && s'.refs == s.refs[h := 1]
  {
    Exact(s.refs[h], -1);
    var s1 := At(s, t, ReaddLoadHead(h, ToGetLoop(newHead))).(refs := s.refs[h := SHOULD_BE_ON_FREELIST]);
    assert Apply(s, Advance(t)) == s1;
    ReaddRun(s1, t, h, ToGetLoop(newHead));
    ChainFrame(s.head, s.next, list, h, s.head);
    assert ([h] + list)[1..] == list;
    Prepend(s, Advance(t), Repeat(t, 4));
  }
}
