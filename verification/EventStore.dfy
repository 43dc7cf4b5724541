/**
  How the client batches received events into the database (client/src/mono_profiler_client.cpp): events are buffered
  per frame, written with interned type names and callstacks when the frame changes or the buffer grows, and each write
  replaces the frame's row of statistics. The running total is an unbounded integer here.
 */
module EventStore {
  import opened EventLog
  import opened Words

  const NO_FRAME: Word64 := 0xFFFF_FFFF_FFFF_FFFF
  const MAX_BUFFERED: nat := 10000

  /** The rows of closed frames are final; no row is of a frame not yet seen. */
  ghost predicate RowsOk(stats: map<Word64, Stats>, received: seq<Event>, current: Word64) {
    && (forall f: Word64 | HasFrame(received, f) && f != current :: f in stats && stats[f] == TrueStats(received, f))
    && (forall f | f in stats :: HasFrame(received, f) && f != NO_FRAME)
  }

  ghost predicate CountsOk(received: seq<Event>, current: Word64, allocs: nat, frees: nat) {
    && current == (if received == [] then NO_FRAME else Last(received).frame)
    && allocs == AllocsAt(received, current)
    && frees == FreesAt(received, current)
  }

  /** Writing the row of the current frame. */
  lemma RowWritten(stats: map<Word64, Stats>, received: seq<Event>, current: Word64, row: Stats)
    requires RowsOk(stats, received, current) && HasFrame(received, current) && current != NO_FRAME
    ensures RowsOk(stats[current := row], received, current)
  {
  }

  /** A row that is true stays true when an event of a later frame arrives. */
  lemma StaysTrue(received: seq<Event>, e: Event, f: Word64, row: Stats)
    requires NonDecreasing(received + [e]) && HasFrame(received + [e], f) && f != e.frame
    requires row == TrueStats(received, f)
    ensures HasFrame(received, f) && row == TrueStats(received + [e], f)
  {
    ShorterNonDecreasing(received, e);
    MoreFrames(received, e, f);
    var i :| 0 <= i < |received| && received[i].frame == f;
    LaterEvent(received, e, f);
  }

  /** The written row is final if the next event is of a later frame. */
  lemma FrameClosed(
      stats: map<Word64, Stats>, received: seq<Event>, current: Word64, allocs: nat, frees: nat, e: Event)
    requires NonDecreasing(received + [e]) && received != [] && e.frame != current
    requires RowsOk(stats, received, current) && CountsOk(received, current, allocs, frees)
    ensures current < e.frame
    ensures var row := Stats(allocs, frees, AllocatedBytes(received) - FreedBytes(received));
            RowsOk(stats[current := row], received + [e], e.frame)
  {
    ShorterNonDecreasing(received, e);
    var row := Stats(allocs, frees, AllocatedBytes(received) - FreedBytes(received));
    var stats', all := stats[current := row], received + [e];
    assert received[|received| - 1].frame == current;
    AllBytes(received, current);
    assert row == TrueStats(received, current);
    forall f: Word64 | HasFrame(all, f) && f != e.frame ensures f in stats' && stats'[f] == TrueStats(all, f) {
      MoreFrames(received, e, f);
      StaysTrue(received, e, f, stats'[f]);
    }
    forall f | f in stats' ensures HasFrame(all, f) && f != NO_FRAME {
      MoreFrames(received, e, f);
    }
  }

  /** One more event of the current frame, or the first event of all. */
  lemma FrameContinues(stats: map<Word64, Stats>, received: seq<Event>, current: Word64, e: Event)
    requires NonDecreasing(received + [e]) && RowsOk(stats, received, current)
    requires received == [] || e.frame == current
    ensures RowsOk(stats, received + [e], e.frame)
  {
    var all := received + [e];
    forall f: Word64 | HasFrame(all, f) && f != e.frame ensures f in stats && stats[f] == TrueStats(all, f) {
      MoreFrames(received, e, f);
      StaysTrue(received, e, f, stats[f]);
    }
    forall f | f in stats ensures HasFrame(all, f) && f != NO_FRAME {
      MoreFrames(received, e, f);
    }
  }

  lemma Counted(received: seq<Event>, current: Word64, allocs: nat, frees: nat, e: Event)
    requires NonDecreasing(received + [e]) && CountsOk(received, current, allocs, frees)
    ensures var a, b := if e.frame == current then allocs else 0, if e.frame == current then frees else 0;
            CountsOk(received + [e], e.frame, a + (if e.Alloc? then 1 else 0), b + if e.Free? then 1 else 0)
  {
    OneMore(received, e);
    if e.frame != current {
      ShorterNonDecreasing(received, e);
      forall i | 0 <= i < |received| ensures received[i].frame != e.frame {
        assert received[i].frame <= received[|received| - 1].frame;
      }
      NewFrame(received, e.frame);
    }
  }

  ghost predicate LogOk(
      rows: seq<Row>, buffer: seq<Event>, received: seq<Event>, types: map<nat, string>, stacks: map<nat, string>) {
    && |rows| + |buffer| == |received|
    && Stored(rows, received[..|rows|], types, stacks)
    && buffer == received[|rows|..]
  }

  lemma LogAppend(
      rows: seq<Row>, buffer: seq<Event>, received: seq<Event>, types: map<nat, string>, stacks: map<nat, string>,
      e: Event)
    requires LogOk(rows, buffer, received, types, stacks)
    ensures LogOk(rows, buffer + [e], received + [e], types, stacks)
  {
    assert (received + [e])[..|rows|] == received[..|rows|];
  }

  /** The running total is what was allocated minus what was freed. */
  ghost predicate BalanceOk(received: seq<Event>, total: int) {
    total == AllocatedBytes(received) - FreedBytes(received)
  }

  lemma BalanceAppend(received: seq<Event>, total: int, e: Event)
    requires BalanceOk(received, total)
    ensures BalanceOk(
              received + [e], total + (if e.Alloc? then e.size else 0) - if e.Free? then e.size else 0)
  {
    OneMore(received, e);
  }

  ghost predicate FrameInv(
      stats: map<Word64, Stats>, received: seq<Event>, current: Word64, allocs: nat, frees: nat, buffer: seq<Event>) {
    && RowsOk(stats, received, current)
    && CountsOk(received, current, allocs, frees)
    && forall i | 0 <= i < |buffer| :: buffer[i].frame == current
  }

  /** One event: the frame it closes, if any, gets its final row, and the counts go on or start again. */
  lemma EventStep(
      stats: map<Word64, Stats>, received: seq<Event>, current: Word64, allocs: nat, frees: nat, buffer: seq<Event>,
      e: Event, total: int, stats': map<Word64, Stats>, allocs': nat, frees': nat, buffer': seq<Event>)
    requires BalanceOk(received, total)
    requires NonDecreasing(received) ==> FrameInv(stats, received, current, allocs, frees, buffer)
    requires stats' == if e.frame != current && current != NO_FRAME
                       then stats[current := Stats(allocs, frees, total)] else stats
    requires buffer' == if e.frame != current && current != NO_FRAME then [e] else buffer + [e]
    requires allocs' == (if e.frame == current then allocs else 0) + if e.Alloc? then 1 else 0
    requires frees' == (if e.frame == current then frees else 0) + if e.Free? then 1 else 0
    requires |buffer| <= |received|
    ensures NonDecreasing(received + [e]) ==> FrameInv(stats', received + [e], e.frame, allocs', frees', buffer')
  {
    if NonDecreasing(received + [e]) {
      ShorterNonDecreasing(received, e);
      Counted(received, current, allocs, frees, e);
      if received == [] || e.frame == current {
        FrameContinues(stats, received, current, e);
      } else {
        FrameClosed(stats, received, current, allocs, frees, e);
      }
    }
  }

  // ---- The frame boundaries

  ghost predicate AllNumbered(events: seq<Event>) {
    forall i | 0 <= i < |events| :: events[i].frame != NO_FRAME
  }

  /** The boundaries are the first frame received and the largest one. */
  ghost predicate RangeOk(received: seq<Event>, known: bool, first: Word64, largest: Word64) {
    AllNumbered(received) ==>
      && (known <==> received != [])
      && (received != [] ==> first == received[0].frame && HasFrame(received, largest))
      && forall i | 0 <= i < |received| :: received[i].frame <= largest
  }

  /** The boundaries once a frame was noted. */
  predicate Noted(
      known: bool, first: Word64, largest: Word64, frame: Word64, known': bool, first': Word64, largest': Word64) {
    && known' && first' == (if known then first else frame)
    && largest' == if frame > largest then frame else largest
  }

  function CurrentFrame(received: seq<Event>): Word64 {
    if received == [] then NO_FRAME else Last(received).frame
  }

  lemma RangeStep(
      received: seq<Event>, e: Event, known: bool, first: Word64, largest: Word64, known': bool, first': Word64,
      largest': Word64)
    requires RangeOk(received, known, first, largest)
    requires if e.frame == CurrentFrame(received) then known' == known && first' == first && largest' == largest
             else Noted(known, first, largest, e.frame, known', first', largest')
    requires !known ==> largest == 0
    ensures RangeOk(received + [e], known', first', largest')
  {
    var all := received + [e];
    if AllNumbered(all) {
      assert all[|received|] == e;
      forall i | 0 <= i < |received| ensures received[i].frame != NO_FRAME {
        assert all[i] == received[i];
      }
      MoreFrames(received, e, largest');
    }
  }

  class Client {
    var frameEvents: seq<Event>
    var prevFrame: Word64
    var frameAllocs: nat
    var frameFrees: nat
    var total: int
    var hasMinFrame: bool
    var minFrame: Word64
    var maxFrame: Word64
    var typeIds: map<string, nat>
    var typeNames: map<nat, string>
    var nextTypeId: nat
    var callstackIds: map<string, nat>
    var callstacks: map<nat, string>
    var nextCallstackId: nat
    // The tables ProfilerEvents and FrameStats.
    var dbEvents: seq<Row>
    var dbStats: map<Word64, Stats>
    ghost var received: seq<Event>

    ghost predicate Caches()
      reads this
    {
      Interned(typeIds, typeNames, nextTypeId) && Interned(callstackIds, callstacks, nextCallstackId)
    }

    /** The stored rows followed by the buffer are the received events, in order. */
    ghost predicate NothingLost()
      reads this
    {
      && LogOk(dbEvents, frameEvents, received, typeNames, callstacks)
      && BalanceOk(received, total)
    }

    /** What holds while frames arrive in order: see RowsOk and CountsOk; the buffer is of one frame. */
    ghost predicate FramesOk()
      reads this
    {
      FrameInv(dbStats, received, prevFrame, frameAllocs, frameFrees, frameEvents)
    }

    /** The known frame boundaries cover the rows. */
    ghost predicate BoundsOk()
      reads this
    {
      && (prevFrame == NO_FRAME || (hasMinFrame && prevFrame <= maxFrame))
      && (forall f | f in dbStats :: f <= maxFrame && f != NO_FRAME)
    }

    /** The boundaries are right and the current frame is that of the last event. */
    ghost predicate NotedOk()
      reads this
    {
      && RangeOk(received, hasMinFrame, minFrame, maxFrame) && (hasMinFrame || maxFrame == 0)
      && prevFrame == CurrentFrame(received)
    }

    ghost predicate Valid()
      reads this
    {
      Recorded() && NotedOk()
    }

    ghost predicate Recorded()
      reads this
    {
      Caches() && NothingLost() && BoundsOk() && (NonDecreasing(received) ==> FramesOk())
    }

    constructor ()
      ensures Valid() && received == [] && dbEvents == [] && dbStats == map[]
    {
      frameEvents, prevFrame, frameAllocs, frameFrees, total := [], NO_FRAME, 0, 0, 0;
      hasMinFrame, minFrame, maxFrame := false, 0, 0;
      typeIds, typeNames, nextTypeId := map[], map[], 0;
      callstackIds, callstacks, nextCallstackId := map[], map[], 0;
      dbEvents, dbStats, received := [], map[], [];
    }

    method GetOrCreateTypeId(name: string) returns (id: nat)
      requires Caches()
      modifies this`typeIds, this`typeNames, this`nextTypeId
      ensures Caches() && id in typeNames && typeNames[id] == name
      ensures Extends(old(typeNames), typeNames)
    {
      if name in typeIds {
        return typeIds[name];
      }
      id := nextTypeId;
      nextTypeId := nextTypeId + 1;
      typeIds := typeIds[name := id];
      typeNames := typeNames[id := name];
    }

    method GetOrCreateCallstackId(callstack: string) returns (id: nat)
      requires Caches()
      modifies this`callstackIds, this`callstacks, this`nextCallstackId
      ensures Caches() && id in callstacks && callstacks[id] == callstack
      ensures Extends(old(callstacks), callstacks)
    {
      if callstack in callstackIds {
        return callstackIds[callstack];
      }
      id := nextCallstackId;
      nextCallstackId := nextCallstackId + 1;
      callstackIds := callstackIds[callstack := id];
      callstacks := callstacks[id := callstack];
    }

    /** One round of the loop of save_frame_events. */
    method InsertEvent(e: Event, ghost before: seq<Event>)
      requires Caches() && Stored(dbEvents, before, typeNames, callstacks)
      modifies this`typeIds, this`typeNames, this`nextTypeId,
               this`callstackIds, this`callstacks, this`nextCallstackId, this`dbEvents
      ensures Caches() && Stored(dbEvents, before + [e], typeNames, callstacks)
    {
      if e.Alloc? {
        var typeId := GetOrCreateTypeId(e.name);
        var callstackId := GetOrCreateCallstackId(e.callstack);
        dbEvents := dbEvents + [AllocRow(e.frame, e.addr, e.size, typeId, callstackId)];
      } else {
        dbEvents := dbEvents + [FreeRow(e.frame, e.addr, e.size)];
      }
    }

    /** Writes the buffer and the current frame's row in one transaction. */
    method SaveFrameEvents()
      requires Caches() && NothingLost()
      modifies this`typeIds, this`typeNames, this`nextTypeId, this`callstackIds, this`callstacks,
               this`nextCallstackId, this`dbEvents, this`dbStats, this`frameEvents
      ensures Caches() && NothingLost()
      ensures prevFrame == NO_FRAME ==> frameEvents == old(frameEvents) && dbStats == old(dbStats)
      ensures prevFrame != NO_FRAME ==>
                frameEvents == [] && dbStats == old(dbStats)[prevFrame := Stats(frameAllocs, frameFrees, total)]
    {
      if prevFrame == NO_FRAME {
        return;
      }
      ghost var first := |dbEvents|;
      var i := 0;
      assert received[..first + 0] == received[..first];
      while i < |frameEvents|
        invariant i <= |frameEvents| && |dbEvents| == first + i <= |received|
        invariant frameEvents == received[first..] && dbStats == old(dbStats)
        invariant Caches() && Stored(dbEvents, received[..first + i], typeNames, callstacks)
      {
        InsertEvent(frameEvents[i], received[..first + i]);
        assert received[..first + i] + [frameEvents[i]] == received[..first + i + 1];
        i := i + 1;
      }
      dbStats := dbStats[prevFrame := Stats(frameAllocs, frameFrees, total)];
      frameEvents := [];
    }

    method NoteFrame(frame: Word64)
      modifies this`hasMinFrame, this`minFrame, this`maxFrame
      ensures Noted(old(hasMinFrame), old(minFrame), old(maxFrame), frame, hasMinFrame, minFrame, maxFrame)
      ensures hasMinFrame && frame <= maxFrame && old(maxFrame) <= maxFrame
    {
      if !hasMinFrame {
        minFrame, hasMinFrame := frame, true;
      }
      if frame > maxFrame {
        maxFrame := frame;
      }
    }

    /** Closes the previous frame when an event of another frame arrives. */
    method TrySaveEvents(frame: Word64)
      requires Caches() && NothingLost() && BoundsOk()
      modifies this
      ensures Caches() && NothingLost() && BoundsOk() && prevFrame == frame
      ensures received == old(received)
      ensures if frame == old(prevFrame)
              then hasMinFrame == old(hasMinFrame) && minFrame == old(minFrame) && maxFrame == old(maxFrame)
              else Noted(old(hasMinFrame), old(minFrame), old(maxFrame), frame, hasMinFrame, minFrame, maxFrame)
      ensures frameAllocs == if frame == old(prevFrame) then old(frameAllocs) else 0
      ensures frameFrees == if frame == old(prevFrame) then old(frameFrees) else 0
      ensures frameEvents == if frame != old(prevFrame) && old(prevFrame) != NO_FRAME then [] else old(frameEvents)
      ensures dbStats == if frame != old(prevFrame) && old(prevFrame) != NO_FRAME
                         then old(dbStats)[old(prevFrame) := Stats(old(frameAllocs), old(frameFrees), old(total))]
                         else old(dbStats)
    {
      if frame != prevFrame {
        CloseFrame(frame);
      }
    }

    /** Another frame begins: the previous one is written. */
    method CloseFrame(frame: Word64)
      requires Caches() && NothingLost() && BoundsOk() && frame != prevFrame
      modifies this
      ensures Caches() && NothingLost() && BoundsOk() && prevFrame == frame
      ensures received == old(received) && frameAllocs == 0 && frameFrees == 0
      ensures Noted(old(hasMinFrame), old(minFrame), old(maxFrame), frame, hasMinFrame, minFrame, maxFrame)
      ensures frameEvents == if old(prevFrame) != NO_FRAME then [] else old(frameEvents)
      ensures dbStats == if old(prevFrame) != NO_FRAME
                         then old(dbStats)[old(prevFrame) := Stats(old(frameAllocs), old(frameFrees), old(total))]
                         else old(dbStats)
    {
      NoteFrame(frame);
      SaveFrameEvents();
      BeginFrame(frame);
    }

    method BeginFrame(frame: Word64)
      requires Caches() && NothingLost() && hasMinFrame && frame <= maxFrame
      requires forall f | f in dbStats :: f <= maxFrame && f != NO_FRAME
      modifies this`prevFrame, this`frameAllocs, this`frameFrees
      ensures Caches() && NothingLost() && BoundsOk()
      ensures prevFrame == frame && frameAllocs == 0 && frameFrees == 0
    {
      prevFrame := frame;
      frameAllocs, frameFrees := 0, 0;
    }

    /** Buffers and counts an event of the current frame. */
    method Push(e: Event)
      requires Caches() && NothingLost() && BoundsOk() && prevFrame == e.frame
      modifies this`frameEvents, this`frameAllocs, this`frameFrees, this`total, this`received
      ensures Caches() && NothingLost() && BoundsOk()
      ensures received == old(received) + [e] && frameEvents == old(frameEvents) + [e]
      ensures frameAllocs == old(frameAllocs) + if e.Alloc? then 1 else 0
      ensures frameFrees == old(frameFrees) + if e.Free? then 1 else 0
    {
      LogAppend(dbEvents, frameEvents, received, typeNames, callstacks, e);
      BalanceAppend(received, total, e);
      frameEvents := frameEvents + [e];
      CountEvent(e);
      received := received + [e];
    }

    method CountEvent(e: Event)
      modifies this`frameAllocs, this`frameFrees, this`total
      ensures frameAllocs == old(frameAllocs) + if e.Alloc? then 1 else 0
      ensures frameFrees == old(frameFrees) + if e.Free? then 1 else 0
      ensures total == old(total) + (if e.Alloc? then e.size else 0) - if e.Free? then e.size else 0
    {
      if e.Alloc? {
        frameAllocs := frameAllocs + 1;
        total := total + e.size;
      } else {
        frameFrees := frameFrees + 1;
        total := total - e.size;
      }
    }

    /** What an SRV_ALLOC or SRV_FREE message does, up to the check of the buffer's length. */
    method Receive(e: Event)
      requires Valid()
      modifies this
      ensures Valid() && received == old(received) + [e]
    {
      ghost var before, known, first, largest := received, hasMinFrame, minFrame, maxFrame;
      Record(e);
      RangeStep(before, e, known, first, largest, hasMinFrame, minFrame, maxFrame);
    }

    method Record(e: Event)
      requires Recorded()
      modifies this
      ensures Recorded() && received == old(received) + [e] && prevFrame == e.frame
      ensures if e.frame == old(prevFrame)
              then hasMinFrame == old(hasMinFrame) && minFrame == old(minFrame) && maxFrame == old(maxFrame)
              else Noted(old(hasMinFrame), old(minFrame), old(maxFrame), e.frame, hasMinFrame, minFrame, maxFrame)
    {
      ghost var stats, current, allocs, frees, buffer := dbStats, prevFrame, frameAllocs, frameFrees, frameEvents;
      ghost var before, bytes := received, total;
      TrySaveEvents(e.frame);
      Push(e);
      EventStep(
        stats, before, current, allocs, frees, buffer, e, bytes, dbStats, frameAllocs, frameFrees, frameEvents);
    }

    /** Writes the buffer in the middle of a frame. */
    method Flush()
      requires Recorded() && received != [] && prevFrame == Last(received).frame
      modifies this`typeIds, this`typeNames, this`nextTypeId, this`callstackIds, this`callstacks,
               this`nextCallstackId, this`dbEvents, this`dbStats, this`frameEvents
      ensures Recorded() && (prevFrame != NO_FRAME ==> frameEvents == [])
    {
      ghost var stats := dbStats;
      SaveFrameEvents();
      if NonDecreasing(received) && prevFrame != NO_FRAME {
        assert received[|received| - 1].frame == prevFrame;
        RowWritten(stats, received, prevFrame, Stats(frameAllocs, frameFrees, total));
      }
    }

    /** One message: the event is recorded and a long buffer is written out in the middle of the frame. */
    method ProcessEvent(e: Event)
      requires Valid()
      modifies this
      ensures Valid() && received == old(received) + [e]
      ensures prevFrame != NO_FRAME ==> |frameEvents| <= MAX_BUFFERED
    {
      Receive(e);
      if |frameEvents| > MAX_BUFFERED {
        Flush();
      }
    }
  }

  // ---- Whole runs

  /**
    Whatever is received: the stored rows followed by the buffer, the rows of the closed frames, and the boundaries.
   */
  method RecordAll(events: seq<Event>)
      returns (
        rows: seq<Row>, buffer: seq<Event>, stats: map<Word64, Stats>, types: map<nat, string>,
        stacks: map<nat, string>, known: bool, first: Word64, largest: Word64)
    ensures LogOk(rows, buffer, events, types, stacks) && RangeOk(events, known, first, largest)
    ensures NonDecreasing(events) && events != [] ==>
              && RowsOk(stats, events, Last(events).frame)
              && forall i | 0 <= i < |buffer| :: buffer[i].frame == Last(events).frame
  {
    var client := new Client();
    var i := 0;
    while i < |events|
      invariant i <= |events| && client.Valid() && fresh(client) && client.received == events[..i]
    {
      client.ProcessEvent(events[i]);
      i := i + 1;
    }
    assert events[..i] == events;
    rows, buffer, stats := client.dbEvents, client.frameEvents, client.dbStats;
    types, stacks := client.typeNames, client.callstacks;
    known, first, largest := client.hasMinFrame, client.minFrame, client.maxFrame;
  }
}
