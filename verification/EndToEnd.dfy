/**
  From the worker to the client: what the worker reports (server/src/worker_thread.cpp) and the client records
  (client/src/mono_profiler_client.cpp). A run whose sweeps are safe reports a stream on which the client's two queries
  agree.
 */
module EndToEnd {
  import opened EventLog
  import opened EventStore
  import opened LiveBytes
  import opened Words
  import opened Wrappers
  import FrameStats
  import LiveObjects
  import ShadowRuns

  /** The client received the event that the server reported. */
  predicate Matches(sent: ShadowRuns.Event, got: Event) {
    && got.frame == sent.frame && got.addr == sent.addr && got.size == sent.size
    && (got.Alloc? <==> sent.Allocated?)
  }

  predicate Delivered(sent: seq<ShadowRuns.Event>, got: seq<Event>) {
    |sent| == |got| && forall i | 0 <= i < |sent| :: Matches(sent[i], got[i])
  }

  /** What a replay of the sent events holds is what is open among the received ones. */
  ghost predicate OpenAre(m: map<nat, nat>, events: seq<Event>) {
    && (forall a: Word64, i: nat | Open(events, a, i, |events|) :: a in m && m[a] == events[i].size)
    && (forall a: nat | a in m :: a < TWO_64 && exists i: nat :: Open(events, a, i, |events|))
  }

  lemma OpenAfter(events: seq<Event>, a: Word64, i: nat)
    requires events != []
    ensures var n := |events| - 1;
            Open(events, a, i, |events|)
            <==> if i == n then AllocOf(events, n, a) else Open(Init(events), a, i, n) && !FreeOf(events, n, a)
  {
    var n := |events| - 1;
    if i != n {
      OpenPrefix(events, a, i, n);
      if Open(events, a, i, |events|) {
        assert !FreeOf(events, n, a);
        forall k: nat | i < k < n ensures !FreeOf(events, k, a) {
        }
      }
    }
  }

  /** A stream that replays without contradiction is well paired where it arrives. */
  lemma {:induction false} ReplayedIsPaired(sent: seq<ShadowRuns.Event>, got: seq<Event>)
    requires Delivered(sent, got) && ShadowRuns.Replay(sent).Some?
    ensures Paired(got) && OpenAre(ShadowRuns.Replay(sent).value, got)
    decreases |sent|
  {
    if sent != [] {
      var n := |sent| - 1;
      ReplayedIsPaired(sent[..n], Init(got));
      var m := ShadowRuns.Replay(sent[..n]).value;
      LastPaired(m, got);
      forall k: nat | k < |got| ensures PairedAt(got, k) {
        if k < n {
          assert PairedAt(Init(got), k);
          PairedAtPrefix(got, k);
        }
      }
      LastOpen(m, got, ShadowRuns.Replay(sent).value);
    }
  }

  lemma PairedAtPrefix(events: seq<Event>, k: nat)
    requires k + 1 < |events| && PairedAt(Init(events), k)
    ensures PairedAt(events, k)
  {
    forall i: nat ensures Open(Init(events), events[k].addr, i, k) <==> Open(events, events[k].addr, i, k) {
      OpenPrefix(events, events[k].addr, i, k);
    }
  }

  lemma LastPaired(m: map<nat, nat>, events: seq<Event>)
    requires events != [] && OpenAre(m, Init(events))
    requires var e := Last(events); if e.Alloc? then e.addr !in m else e.addr in m && m[e.addr] == e.size
    ensures PairedAt(events, |events| - 1)
  {
    var n, e := |events| - 1, Last(events);
    forall i: nat ensures Open(Init(events), e.addr, i, n) <==> Open(events, e.addr, i, n) {
      OpenPrefix(events, e.addr, i, n);
    }
    if e.Free? {
      var i: nat :| Open(Init(events), e.addr, i, n);
      assert Open(events, e.addr, i, n) && events[i].size == e.size;
    }
  }

  lemma LastOpen(m: map<nat, nat>, events: seq<Event>, m': map<nat, nat>)
    requires events != [] && OpenAre(m, Init(events))
    requires var e := Last(events); if e.Alloc? then e.addr !in m else e.addr in m
    requires var e := Last(events); m' == if e.Alloc? then m[e.addr := e.size] else m - {e.addr}
    ensures OpenAre(m', events)
  {
    var n, e := |events| - 1, Last(events);
    forall a: Word64, i: nat | Open(events, a, i, |events|) ensures a in m' && m'[a] == events[i].size {
      OpenAfter(events, a, i);
      if i != n {
        assert a in m && m[a] == Init(events)[i].size;
      }
    }
    forall a: nat | a in m' ensures a < TWO_64 && exists i: nat :: Open(events, a, i, |events|) {
      if a == e.addr {
        OpenAfter(events, a, n);
      } else {
        var i: nat :| Open(Init(events), a, i, n);
        OpenAfter(events, a, i);
      }
    }
  }

  /** What a safe run of the worker reports is well paired when it arrives. */
  lemma SafeRunIsPaired(actions: seq<ShadowRuns.Action>, got: seq<Event>)
    requires ShadowRuns.Runs(ShadowRuns.Empty(), actions) && ShadowRuns.SafeSweeps(ShadowRuns.Empty(), actions)
    requires Delivered(ShadowRuns.After(ShadowRuns.Empty(), actions).events, got)
    ensures Paired(got)
  {
    ShadowRuns.ReportedStream(actions, 0, 0);
    ReplayedIsPaired(ShadowRuns.After(ShadowRuns.Empty(), actions).events, got);
  }

  /**
    From the profiled heap to the answers: if the sweeps of the worker's run are safe and its events arrive with frames
    in order, the size reported for each closed frame is what the objects listed up to that frame take.
   */
  lemma SafeRunsAgree(
      actions: seq<ShadowRuns.Action>, rows: seq<Row>, buffer: seq<Event>, got: seq<Event>, types: map<nat, string>,
      stacks: map<nat, string>, stats: map<Word64, Stats>, f: Word64)
    requires ShadowRuns.Runs(ShadowRuns.Empty(), actions) && ShadowRuns.SafeSweeps(ShadowRuns.Empty(), actions)
    requires Delivered(ShadowRuns.After(ShadowRuns.Empty(), actions).events, got)
    requires got != [] && NonDecreasing(got) && f < Last(got).frame
    requires LogOk(rows, buffer, got, types, stacks) && RowsOk(stats, got, Last(got).frame)
    requires forall i | 0 <= i < |buffer| :: buffer[i].frame == Last(got).frame
    ensures FrameStats.SizeAt(stats, f)
         == Wrap(LiveSizes(LiveObjects.Replay(LiveObjects.SelectEvents(rows, 0, f))))
  {
    SafeRunIsPaired(actions, got);
    ReportedSizeIsLive(rows, buffer, got, types, stacks, stats, f);
  }
}
