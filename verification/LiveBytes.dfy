/**
  What the stored events say about the objects that are live, and how the reported sizes and the listed objects agree
  (client/src/mono_profiler_client.cpp, `get_stats` and `get_live_objects`).
 */
module LiveBytes {
  import opened EventLog
  import opened EventStore
  import opened LiveObjects
  import opened Words
  import FrameStats

  // ---- Received events

  predicate AllocOf(events: seq<Event>, i: nat, a: Word64) {
    i < |events| && events[i].Alloc? && events[i].addr == a
  }

  predicate FreeOf(events: seq<Event>, i: nat, a: Word64) {
    i < |events| && events[i].Free? && events[i].addr == a
  }

  /** Event i allocates a, and a is not freed after it and before event n. */
  ghost predicate Open(events: seq<Event>, a: Word64, i: nat, n: nat) {
    i < n && AllocOf(events, i, a) && forall k: nat | i < k < n :: !FreeOf(events, k, a)
  }

  /** An address is allocated only while it is not, and freed only while it is, with the size of its allocation. */
  ghost predicate PairedAt(events: seq<Event>, k: nat)
    requires k < |events|
  {
    if events[k].Alloc? then forall i: nat :: !Open(events, events[k].addr, i, k)
    else exists i: nat :: Open(events, events[k].addr, i, k) && events[i].size == events[k].size
  }

  /** Every address alternates between allocations and frees of the same size. */
  ghost predicate Paired(events: seq<Event>) {
    forall k: nat | k < |events| :: PairedAt(events, k)
  }

  lemma OpenPrefix(events: seq<Event>, a: Word64, i: nat, n: nat)
    requires events != [] && n < |events|
    ensures Open(Init(events), a, i, n) <==> Open(events, a, i, n)
  {
    var init := Init(events);
    if Open(init, a, i, n) {
      forall k: nat | i < k < n ensures !FreeOf(events, k, a) {
        assert !FreeOf(init, k, a);
      }
    }
    if Open(events, a, i, n) {
      forall k: nat | i < k < n ensures !FreeOf(init, k, a) {
        assert !FreeOf(events, k, a);
      }
    }
  }

  lemma PairedPrefix(events: seq<Event>)
    requires Paired(events) && events != []
    ensures Paired(Init(events))
  {
    forall k: nat | k < |Init(events)| ensures PairedAt(Init(events), k) {
      assert PairedAt(events, k);
      forall i: nat ensures Open(Init(events), events[k].addr, i, k) <==> Open(events, events[k].addr, i, k) {
        OpenPrefix(events, events[k].addr, i, k);
      }
    }
  }

  // ---- The listed objects, in terms of the received events

  /** The object is the one event e allocated, under the names of the event. */
  ghost predicate Describes(o: LiveObject, e: Event, types: map<nat, string>, stacks: map<nat, string>) {
    && e.Alloc? && o.addr == e.addr && o.size == e.size && o.frame == e.frame
    && o.typeId in types && types[o.typeId] == e.name
    && o.callstackId in stacks && stacks[o.callstackId] == e.callstack
  }

  lemma RowsAreEvents(
      rows: seq<Row>, events: seq<Event>, types: map<nat, string>, stacks: map<nat, string>, a: Word64, k: nat)
    requires Stored(rows, events, types, stacks)
    ensures IsAlloc(rows, k, a) <==> AllocOf(events, k, a)
    ensures IsFree(rows, k, a) <==> FreeOf(events, k, a)
  {
    assert k < |rows| ==> Represents(rows[k], events[k], types, stacks);
  }

  lemma OpenIsLive(
      rows: seq<Row>, events: seq<Event>, types: map<nat, string>, stacks: map<nat, string>, a: Word64, i: nat)
    requires Stored(rows, events, types, stacks) && Paired(events) && Open(events, a, i, |events|)
    ensures LiveFrom(rows, a, i)
  {
    RowsAreEvents(rows, events, types, stacks, a, i);
    if FreedBetween(rows, a, i, |rows|) {
      var k: nat :| i < k < |rows| && IsFree(rows, k, a);
      RowsAreEvents(rows, events, types, stacks, a, k);
    }
    forall j: nat | j < i && IsAlloc(rows, j, a) ensures FreedBetween(rows, a, j, i) {
      RowsAreEvents(rows, events, types, stacks, a, j);
      assert PairedAt(events, i) && !Open(events, a, j, i);
      var k: nat :| j < k < i && FreeOf(events, k, a);
      RowsAreEvents(rows, events, types, stacks, a, k);
    }
  }

  lemma LiveIsOpen(
      rows: seq<Row>, events: seq<Event>, types: map<nat, string>, stacks: map<nat, string>, a: Word64, i: nat)
    requires Stored(rows, events, types, stacks) && LiveFrom(rows, a, i)
    ensures Open(events, a, i, |events|)
  {
    RowsAreEvents(rows, events, types, stacks, a, i);
    forall k: nat | i < k < |events| ensures !FreeOf(events, k, a) {
      RowsAreEvents(rows, events, types, stacks, a, k);
      assert FreeOf(events, k, a) ==> FreedBetween(rows, a, i, |rows|);
    }
  }

  /** An address is listed exactly if an allocation of it was received and no free after it, as that event told. */
  lemma LiveAsReceived(
      rows: seq<Row>, events: seq<Event>, types: map<nat, string>, stacks: map<nat, string>, a: Word64)
    requires Stored(rows, events, types, stacks) && Paired(events)
    ensures a in Replay(rows) <==> exists i: nat :: Open(events, a, i, |events|)
    ensures forall i: nat | Open(events, a, i, |events|) ::
              a in Replay(rows) && Describes(Replay(rows)[a], events[i], types, stacks)
  {
    LiveExactly(rows, a);
    forall i: nat | Open(events, a, i, |events|)
      ensures a in Replay(rows) && Describes(Replay(rows)[a], events[i], types, stacks)
    {
      OpenIsLive(rows, events, types, stacks, a, i);
      assert Represents(rows[i], events[i], types, stacks);
    }
    if a in Replay(rows) {
      var i: nat :| LiveFrom(rows, a, i);
      LiveIsOpen(rows, events, types, stacks, a, i);
    }
  }

  // ---- The byte total is that of the live objects

  ghost function LiveSizes(live: Live): nat
    decreases |live.Keys|
  {
    if live == map[] then 0
    else
      var a :| a in live;
      assert (live - {a}).Keys == live.Keys - {a};
      live[a].size + LiveSizes(live - {a})
  }

  lemma {:induction false} LiveSizesRemove(live: Live, a: Word64)
    requires a in live
    ensures LiveSizes(live) == live[a].size + LiveSizes(live - {a})
    decreases |live.Keys|
  {
    var b :| b in live && LiveSizes(live) == live[b].size + LiveSizes(live - {b});
    if a != b {
      assert (live - {b}).Keys == live.Keys - {b} && (live - {a}).Keys == live.Keys - {a};
      LiveSizesRemove(live - {b}, a);
      LiveSizesRemove(live - {a}, b);
      assert live - {b} - {a} == live - {a} - {b};
    }
  }

  /** Bytes allocated minus bytes freed are the sizes of the live objects. */
  lemma {:induction false} TotalIsLive(
      rows: seq<Row>, events: seq<Event>, types: map<nat, string>, stacks: map<nat, string>)
    requires Stored(rows, events, types, stacks) && Paired(events)
    ensures AllocatedBytes(events) - FreedBytes(events) == LiveSizes(Replay(rows))
    decreases |events|
  {
    if events != [] {
      var n := |events| - 1;
      var init, e := Init(events), events[n];
      PairedPrefix(events);
      TotalIsLive(rows[..n], init, types, stacks);
      LiveAsReceived(rows[..n], init, types, stacks, e.addr);
      assert PairedAt(events, n) && Represents(rows[n], e, types, stacks);
      forall i: nat ensures Open(init, e.addr, i, n) <==> Open(events, e.addr, i, n) {
        OpenPrefix(events, e.addr, i, n);
      }
      LastChangesTotal(Replay(rows[..n]), rows[n]);
    }
  }

  lemma LastChangesTotal(live: Live, row: Row)
    requires if row.AllocRow? then row.addr !in live else row.addr in live && live[row.addr].size == row.size
    ensures LiveSizes(Apply(live, row)) == LiveSizes(live) + if row.AllocRow? then row.size else 0 - row.size
  {
    if row.AllocRow? {
      LiveSizesRemove(Apply(live, row), row.addr);
      assert Apply(live, row) - {row.addr} == live;
    } else {
      LiveSizesRemove(live, row.addr);
    }
  }

  lemma {:induction false} AllInWindow(rows: seq<Row>, f: Word64)
    requires forall i | 0 <= i < |rows| :: rows[i].frame <= f
    ensures InWindow(rows, 0, f) == rows
  {
    if rows != [] {
      AllInWindow(rows[..|rows| - 1], f);
    }
  }

  lemma StoredInOrder(rows: seq<Row>, events: seq<Event>, types: map<nat, string>, stacks: map<nat, string>)
    requires Stored(rows, events, types, stacks) && NonDecreasing(events)
    ensures FramesInOrder(rows) && forall i | 0 <= i < |rows| :: rows[i].frame == events[i].frame
  {
    forall i | 0 <= i < |rows| ensures rows[i].frame == events[i].frame {
      assert Represents(rows[i], events[i], types, stacks);
    }
  }

  /** The balance of the frames up to f is what the objects live at the end of f take. */
  lemma {:induction false} BalanceIsLive(
      rows: seq<Row>, events: seq<Event>, types: map<nat, string>, stacks: map<nat, string>, f: Word64)
    requires Stored(rows, events, types, stacks) && Paired(events) && NonDecreasing(events)
    ensures AllocatedUpTo(events, f) - FreedUpTo(events, f) == LiveSizes(Replay(InWindow(rows, 0, f)))
    decreases |events|
  {
    StoredInOrder(rows, events, types, stacks);
    if events == [] {
      assert InWindow(rows, 0, f) == [];
    } else if Last(events).frame <= f {
      AllBytes(events, f);
      AllInWindow(rows, f);
      TotalIsLive(rows, events, types, stacks);
    } else {
      PairedPrefix(events);
      BalanceIsLive(rows[..|rows| - 1], Init(events), types, stacks, f);
    }
  }

  /** Events of later frames, as the buffered ones are, do not matter. */
  lemma {:induction false} LaterEvents(events: seq<Event>, n: nat, f: Word64)
    requires n <= |events| && forall i | n <= i < |events| :: events[i].frame > f
    ensures AllocatedUpTo(events, f) == AllocatedUpTo(events[..n], f)
    ensures FreedUpTo(events, f) == FreedUpTo(events[..n], f)
  {
    if n == |events| {
      assert events[..n] == events;
    } else {
      LaterEvents(Init(events), n, f);
      assert Init(events)[..n] == events[..n];
    }
  }

  lemma {:induction false} PairedUpTo(events: seq<Event>, n: nat)
    requires Paired(events) && n <= |events|
    ensures Paired(events[..n])
    decreases |events|
  {
    if n == |events| {
      assert events[..n] == events;
    } else {
      PairedPrefix(events);
      PairedUpTo(Init(events), n);
      assert Init(events)[..n] == events[..n];
    }
  }

  lemma NonDecreasingUpTo(events: seq<Event>, n: nat)
    requires NonDecreasing(events) && n <= |events|
    ensures NonDecreasing(events[..n])
  {
  }

  /** The stored rows are enough for the frames before the buffered one. */
  lemma StoredBalance(
      rows: seq<Row>, buffer: seq<Event>, events: seq<Event>, types: map<nat, string>, stacks: map<nat, string>,
      f: Word64)
    requires NonDecreasing(events) && Paired(events) && LogOk(rows, buffer, events, types, stacks)
    requires forall i | 0 <= i < |buffer| :: buffer[i].frame > f
    ensures AllocatedUpTo(events, f) - FreedUpTo(events, f) == LiveSizes(Replay(SelectEvents(rows, 0, f)))
  {
    var n := |rows|;
    forall i | n <= i < |events| ensures events[i].frame > f {
      assert events[i] == buffer[i - n];
    }
    LaterEvents(events, n, f);
    PairedUpTo(events, n);
    NonDecreasingUpTo(events, n);
    BalanceIsLive(rows, events[..n], types, stacks, f);
    StoredInOrder(rows, events[..n], types, stacks);
    SelectedInOrder(rows, 0, f);
  }

  /**
    The two queries agree: the size that `get_stats` reports for a closed frame is what the objects that
    `get_live_objects` lists for the window up to that frame take.
   */
  lemma ReportedSizeIsLive(
      rows: seq<Row>, buffer: seq<Event>, events: seq<Event>, types: map<nat, string>, stacks: map<nat, string>,
      stats: map<Word64, Stats>, f: Word64)
    requires events != [] && NonDecreasing(events) && Paired(events) && f < Last(events).frame
    requires LogOk(rows, buffer, events, types, stacks) && RowsOk(stats, events, Last(events).frame)
    requires forall i | 0 <= i < |buffer| :: buffer[i].frame == Last(events).frame
    ensures FrameStats.SizeAt(stats, f) == Wrap(LiveSizes(Replay(SelectEvents(rows, 0, f))))
  {
    FrameStats.SizeIsTrue(stats, events, Last(events).frame, f);
    StoredBalance(rows, buffer, events, types, stacks, f);
  }
}
