/**
  A run of the dequeue protocol (common/concurrentqueue.h, `dequeue`) that overclaims. Consumer 0 reads the overcommit
  count and then sleeps. Consumers 1 and 2 race for each published element, so that every round adds one claim and one
  recorded failure. After more than 2^63 rounds the last element is taken, consumer 0 wakes up, and its ticket passes.
 */
module SleepingConsumer {
  import opened CircularIndex
  import opened DequeueTickets
  import opened Words

  lemma {:induction false} RunsConcat(s: State, a: seq<Action>, b: seq<Action>)
    requires Runs(s, a) && Runs(After(s, a), b)
    ensures Runs(s, a + b) && After(s, a + b) == After(After(s, a), b)
    decreases |a|
  {
    if a == [] {
      assert a + b == b;
    } else {
      assert (a + b)[1..] == a[1..] + b;
      RunsConcat(Apply(s, a[0]), a[1..], b);
    }
  }

  lemma RunsOne(s: State, a: Action)
    requires Enabled(s, a)
    ensures Runs(s, [a]) && After(s, [a]) == Apply(s, a)
  {
    assert [a][1..] == [];
  }

  lemma RunsOneMore(s: State, actions: seq<Action>, a: Action)
    requires Runs(s, actions) && Enabled(After(s, actions), a)
    ensures Runs(s, actions + [a]) && After(s, actions + [a]) == Apply(After(s, actions), a)
  {
    RunsOne(After(s, actions), a);
    RunsConcat(s, actions, [a]);
  }

  // ---- What one consumer does

  /** Consumer t reads the registers and passes the first check. */
  lemma Commits(s: State, t: nat) returns (actions: seq<Action>, s': State)
    requires Shaped(s) && t < |s.pcs| && s.pcs[t] == Idle
    requires CircularLess(Wrap(s.optimistic - s.overcommit), s.tail)
    ensures Runs(s, actions) && After(s, actions) == s'
    ensures s' == s.(pcs := s.pcs[t := Committed(s.overcommit)], h := s.h.(seen := s.h.seen[t := |s.h.failed|]))
  {
    actions := [BeginDequeue(t)];
    RunsOne(s, BeginDequeue(t));
    RunsOneMore(s, actions, Advance(t));
    actions := actions + [Advance(t)];
    RunsOneMore(s, actions, Advance(t));
    actions := actions + [Advance(t)];
    RunsOneMore(s, actions, Advance(t));
    actions := actions + [Advance(t)];
    s' := After(s, actions);
  }

  /** Consumer t takes a ticket that passes the second check, and claims an index. */
  lemma Claims(s: State, t: nat, over: Index) returns (actions: seq<Action>, s': State)
    requires Shaped(s) && t < |s.pcs| && s.pcs[t] == Committed(over)
    requires CircularLess(Wrap(s.optimistic - over), s.tail)
    ensures Runs(s, actions) && After(s, actions) == s'
    ensures s' == s.(pcs := s.pcs[t := Idle], optimistic := Wrap(s.optimistic + 1), head := Wrap(s.head + 1),
                     h := s.h.(tickets := s.h.tickets + 1, ticket := s.h.ticket[t := s.h.tickets],
                               passed := s.h.passed + {s.h.tickets}, claims := s.h.claims + [s.head]))
  {
    actions := [Advance(t)];
    RunsOne(s, Advance(t));
    RunsOneMore(s, actions, Advance(t));
    actions := actions + [Advance(t)];
    RunsOneMore(s, actions, Advance(t));
    actions := actions + [Advance(t)];
    RunsOneMore(s, actions, Advance(t));
    actions := actions + [Advance(t)];
    s' := After(s, actions);
  }

  /** Consumer t takes a ticket that fails the second check, and records the failure. */
  lemma Misses(s: State, t: nat, over: Index) returns (actions: seq<Action>, s': State)
    requires Shaped(s) && t < |s.pcs| && s.pcs[t] == Committed(over)
    requires !CircularLess(Wrap(s.optimistic - over), s.tail)
    ensures Runs(s, actions) && After(s, actions) == s'
    ensures s' == s.(pcs := s.pcs[t := Idle], optimistic := Wrap(s.optimistic + 1),
                     overcommit := Wrap(s.overcommit + 1),
                     h := s.h.(tickets := s.h.tickets + 1, ticket := s.h.ticket[t := s.h.tickets],
                               failed := s.h.failed + {s.h.tickets}))
  {
    actions := [Advance(t)];
    RunsOne(s, Advance(t));
    RunsOneMore(s, actions, Advance(t));
    actions := actions + [Advance(t)];
    RunsOneMore(s, actions, Advance(t));
    actions := actions + [Advance(t)];
    s' := After(s, actions);
  }

  // ---- Rounds

  /** After k rounds: one element is left, and consumer 0 sleeps since it read an overcommit count of 0. */
  ghost predicate Poised(s: State, k: nat) {
    && Inv(s) && s.pcs == [Committed(0), Idle, Idle] && s.h.seen[0] == 0
    && s.h.published == k + 1 && s.h.tickets == 2 * k && |s.h.claims| == k
  }

  lemma PoisedRegisters(s: State, k: nat)
    requires Poised(s, k)
    ensures |s.h.failed| == k
    ensures s.tail == Wrap(k + 1) && s.optimistic == Wrap(2 * k) && s.overcommit == Wrap(k)
  {
    CountNone(Undecided, s.pcs);
    CountNone(Entitled, s.pcs);
  }

  /** The checks of round k. */
  lemma RoundChecks(k: nat)
    ensures CircularLess(Wrap(Wrap(2 * k) - Wrap(k)), Wrap(k + 1))
    ensures !CircularLess(Wrap(Wrap(Wrap(2 * k) + 1) - Wrap(k)), Wrap(k + 1))
  {
    WrapDifference(2 * k, k);
    LessOrNot(k, k + 1);
    WrapSum(2 * k, 1);
    WrapDifference(2 * k + 1, k);
    LessOrNot(k + 1, k + 1);
  }

  /** Both consumers read the registers before either takes its ticket; then the next element is published. */
  lemma RoundRuns(s: State, k: nat) returns (actions: seq<Action>, s': State)
    requires Shaped(s) && s.pcs == [Committed(0), Idle, Idle]
    requires s.tail == Wrap(k + 1) && s.optimistic == Wrap(2 * k) && s.overcommit == Wrap(k)
    ensures Runs(s, actions) && After(s, actions) == s'
    ensures Shaped(s') && s'.pcs == [Committed(0), Idle, Idle] && s'.h.seen[0] == s.h.seen[0]
    ensures s'.h.published == s.h.published + 1 && s'.h.tickets == s.h.tickets + 2
    ensures |s'.h.claims| == |s.h.claims| + 1
  {
    RoundChecks(k);
    var a1, s1 := Commits(s, 1);
    var a2, s2 := Commits(s1, 2);
    var a3, s3 := Claims(s2, 1, Wrap(k));
    var a4, s4 := Misses(s3, 2, Wrap(k));
    RunsConcat(s, a1, a2);
    RunsConcat(s, a1 + a2, a3);
    RunsConcat(s, a1 + a2 + a3, a4);
    RunsOneMore(s, a1 + a2 + a3 + a4, Publish);
    actions := a1 + a2 + a3 + a4 + [Publish];
    s' := Apply(s4, Publish);
  }

  lemma Round(s: State, k: nat) returns (actions: seq<Action>)
    requires Poised(s, k)
    ensures Runs(s, actions) && Poised(After(s, actions), k + 1)
  {
    PoisedRegisters(s, k);
    var s';
    actions, s' := RoundRuns(s, k);
    RunInv(s, actions);
  }

  lemma FirstRound() returns (actions: seq<Action>)
    ensures Runs(Init(3), actions) && Poised(After(Init(3), actions), 0)
  {
    var s := Init(3);
    InitInv(3);
    RunsOne(s, Publish);
    var s1 := Apply(s, Publish);
    LessOrNot(0, 1);
    var a, s2 := Commits(s1, 0);
    RunsConcat(s, [Publish], a);
    actions := [Publish] + a;
    RunInv(s, actions);
    assert s2.pcs == [Committed(0), Idle, Idle];
  }

  lemma {:induction false} ManyRounds(k: nat) returns (actions: seq<Action>)
    ensures Runs(Init(3), actions) && Poised(After(Init(3), actions), k)
  {
    if k == 0 {
      actions := FirstRound();
    } else {
      var before := ManyRounds(k - 1);
      var round := Round(After(Init(3), before), k - 1);
      RunsConcat(Init(3), before, round);
      actions := before + round;
    }
  }

  lemma WakeCheck(k: nat)
    requires Wrap(k) > HALF
    ensures CircularLess(Wrap(Wrap(Wrap(2 * k) + 1) - 0), Wrap(k + 1))
  {
    WrapSum(2 * k, 1);
    LessOrNot(2 * k + 1, k + 1);
  }

  /** Consumer 1 takes the last element; then the sleeper's ticket passes if k is past half the range. */
  lemma WakeRuns(s: State, k: nat) returns (actions: seq<Action>)
    requires Shaped(s) && s.pcs == [Committed(0), Idle, Idle] && Wrap(k) > HALF
    requires s.tail == Wrap(k + 1) && s.optimistic == Wrap(2 * k) && s.overcommit == Wrap(k)
    ensures Runs(s, actions)
    ensures var h := After(s, actions).h;
            h.published == s.h.published && |h.claims| == |s.h.claims| + 2
  {
    RoundChecks(k);
    WakeCheck(k);
    var a1, s1 := Commits(s, 1);
    var a2, s2 := Claims(s1, 1, Wrap(k));
    assert s2.pcs[0] == Committed(0) && s2.optimistic == Wrap(Wrap(2 * k) + 1) && s2.tail == Wrap(k + 1);
    var a3, s3 := Claims(s2, 0, 0);
    RunsConcat(s, a1, a2);
    RunsConcat(s, a1 + a2, a3);
    actions := a1 + a2 + a3;
  }

  /** There is a run of three consumers in which more indices are claimed than elements were published. */
  lemma SleeperOverclaims() returns (actions: seq<Action>)
    ensures Runs(Init(3), actions) && !NeverFooled(Init(3), actions)
    ensures var h := After(Init(3), actions).h;
            |h.claims| > h.published
  {
    var before := ManyRounds(HALF + 1);
    var s := After(Init(3), before);
    PoisedRegisters(s, HALF + 1);
    var last := WakeRuns(s, HALF + 1);
    RunsConcat(Init(3), before, last);
    actions := before + last;
    if NeverFooled(Init(3), actions) {
      NeverOverclaims(3, actions);
    }
  }
}
