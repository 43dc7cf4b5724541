/**
  The client's events and frame statistics as values (client/src/mono_profiler_client.cpp and the tables of
  client/src/db_queries.cpp): what rows stand for which received events, and what a frame's row must hold.
 */
module EventLog {
  import opened Words

  datatype Event =
    | Alloc(frame: Word64, addr: Word64, size: nat, name: string, callstack: string)
    | Free(frame: Word64, addr: Word64, size: nat)

  /** A row of ProfilerEvents. */
  datatype Row =
    | AllocRow(frame: Word64, addr: Word64, size: nat, typeId: nat, callstackId: nat)
    | FreeRow(frame: Word64, addr: Word64, size: nat)

  /** A row of FrameStats, keyed by its frame. The size column is signed. */
  datatype Stats = Stats(allocs: nat, frees: nat, size: int)

  // ---- Interned names

  /** A two-way cache of names and numbers: `ids` and `names` are inverse to each other and `next` is unused. */
  ghost predicate Interned(ids: map<string, nat>, names: map<nat, string>, next: nat) {
    && (forall s | s in ids :: ids[s] in names && names[ids[s]] == s)
    && (forall i | i in names :: i < next && names[i] in ids && ids[names[i]] == i)
  }

  ghost predicate Extends(names: map<nat, string>, names': map<nat, string>) {
    forall i | i in names :: i in names' && names'[i] == names[i]
  }

  /** The row stands for the event. */
  ghost predicate Represents(row: Row, e: Event, types: map<nat, string>, stacks: map<nat, string>) {
    && row.frame == e.frame && row.addr == e.addr && row.size == e.size
    && match e
       case Alloc(_, _, _, name, callstack) =>
         && row.AllocRow?
         && row.typeId in types && types[row.typeId] == name
         && row.callstackId in stacks && stacks[row.callstackId] == callstack
       case Free(_, _, _) => row.FreeRow?
  }

  ghost predicate Stored(rows: seq<Row>, events: seq<Event>, types: map<nat, string>, stacks: map<nat, string>) {
    |rows| == |events| && forall i | 0 <= i < |rows| :: Represents(rows[i], events[i], types, stacks)
  }

  // ---- Frame statistics

  ghost predicate NonDecreasing(events: seq<Event>) {
    forall i, j | 0 <= i <= j < |events| :: events[i].frame <= events[j].frame
  }

  ghost predicate HasFrame(events: seq<Event>, f: Word64) {
    exists i :: 0 <= i < |events| && events[i].frame == f
  }

  ghost function AllocsAt(events: seq<Event>, f: Word64): nat {
    if events == [] then 0
    else AllocsAt(Init(events), f) + if Last(events).Alloc? && Last(events).frame == f then 1 else 0
  }

  ghost function FreesAt(events: seq<Event>, f: Word64): nat {
    if events == [] then 0
    else FreesAt(Init(events), f) + if Last(events).Free? && Last(events).frame == f then 1 else 0
  }

  /** Bytes allocated by the events up to frame f. */
  ghost function AllocatedUpTo(events: seq<Event>, f: Word64): nat {
    if events == [] then 0
    else
      var last := Last(events);
      AllocatedUpTo(Init(events), f) + if last.Alloc? && last.frame <= f then last.size else 0
  }

  /** Bytes freed by the events up to frame f. */
  ghost function FreedUpTo(events: seq<Event>, f: Word64): nat {
    if events == [] then 0
    else
      var last := Last(events);
      FreedUpTo(Init(events), f) + if last.Free? && last.frame <= f then last.size else 0
  }

  /** Every byte ever allocated. */
  ghost function AllocatedBytes(events: seq<Event>): nat {
    if events == [] then 0 else AllocatedBytes(Init(events)) + if Last(events).Alloc? then Last(events).size else 0
  }

  /** Every byte ever freed. */
  ghost function FreedBytes(events: seq<Event>): nat {
    if events == [] then 0 else FreedBytes(Init(events)) + if Last(events).Free? then Last(events).size else 0
  }

  function Init(events: seq<Event>): (r: seq<Event>)
    requires events != []
  {
    events[..|events| - 1]
  }

  function Last(events: seq<Event>): Event
    requires events != []
  {
    events[|events| - 1]
  }

  /** The row a frame must end up with. */
  ghost function TrueStats(events: seq<Event>, f: Word64): Stats {
    Stats(AllocsAt(events, f), FreesAt(events, f), AllocatedUpTo(events, f) - FreedUpTo(events, f))
  }

  /** An event of a later frame changes no earlier frame's row. */
  lemma LaterEvent(events: seq<Event>, e: Event, f: Word64)
    requires f < e.frame
    ensures TrueStats(events + [e], f) == TrueStats(events, f)
  {
    assert Init(events + [e]) == events;
  }

  lemma OneMore(events: seq<Event>, e: Event)
    ensures AllocatedBytes(events + [e]) == AllocatedBytes(events) + if e.Alloc? then e.size else 0
    ensures FreedBytes(events + [e]) == FreedBytes(events) + if e.Free? then e.size else 0
    ensures AllocsAt(events + [e], e.frame) == AllocsAt(events, e.frame) + if e.Alloc? then 1 else 0
    ensures FreesAt(events + [e], e.frame) == FreesAt(events, e.frame) + if e.Free? then 1 else 0
  {
    assert Init(events + [e]) == events;
  }

  lemma {:induction false} AllBytes(events: seq<Event>, f: Word64)
    requires forall i | 0 <= i < |events| :: events[i].frame <= f
    ensures AllocatedUpTo(events, f) == AllocatedBytes(events) && FreedUpTo(events, f) == FreedBytes(events)
  {
    if events != [] {
      AllBytes(Init(events), f);
    }
  }

  lemma {:induction false} NewFrame(events: seq<Event>, f: Word64)
    requires !HasFrame(events, f)
    ensures AllocsAt(events, f) == 0 && FreesAt(events, f) == 0
  {
    if events != [] {
      assert events[|events| - 1].frame != f;
      forall i | 0 <= i < |events| - 1 ensures Init(events)[i].frame != f {
        assert events[i].frame != f;
      }
      NewFrame(Init(events), f);
    }
  }

  lemma ShorterNonDecreasing(events: seq<Event>, e: Event)
    requires NonDecreasing(events + [e])
    ensures NonDecreasing(events)
    ensures forall i | 0 <= i < |events| :: events[i].frame <= e.frame
  {
    var all := events + [e];
    forall i, j | 0 <= i <= j < |events| ensures events[i].frame <= events[j].frame {
      assert all[i].frame <= all[j].frame;
    }
    forall i | 0 <= i < |events| ensures events[i].frame <= e.frame {
      assert all[i].frame <= all[|events|].frame;
    }
  }

  lemma MoreFrames(events: seq<Event>, e: Event, f: Word64)
    ensures HasFrame(events + [e], f) <==> HasFrame(events, f) || e.frame == f
  {
    var all := events + [e];
    if HasFrame(events, f) {
      var i :| 0 <= i < |events| && events[i].frame == f;
      assert all[i].frame == f;
    }
    if e.frame == f {
      assert all[|events|].frame == f;
    }
    if HasFrame(all, f) {
      var i :| 0 <= i < |all| && all[i].frame == f;
      assert i < |events| ==> events[i].frame == f;
    }
  }
}
