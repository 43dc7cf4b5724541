/**
  Live objects of a window of frames, found by replaying the stored events (client/src/mono_profiler_client.cpp,
  `get_live_objects`; the query is in client/src/db_queries.cpp).
 */
module LiveObjects {
  import opened EventLog
  import opened Words
  import opened Wrappers

  datatype LiveObject = LiveObject(addr: Word64, size: nat, frame: Word64, typeId: nat, callstackId: nat)

  type Live = map<Word64, LiveObject>

  // ---- The rows of a window, by frame and then by insertion: `select_events`

  function AtFrame(rows: seq<Row>, f: int): seq<Row> {
    if rows == [] then []
    else
      var rest := AtFrame(rows[..|rows| - 1], f);
      var last := rows[|rows| - 1];
      if last.frame == f then rest + [last] else rest
  }

  function SelectEvents(rows: seq<Row>, from: int, until: int): seq<Row>
    decreases until - from
  {
    if until < from then [] else SelectEvents(rows, from, until - 1) + AtFrame(rows, until)
  }

  /** A window is the concatenation of its two parts. */
  lemma {:induction false} WindowSplits(rows: seq<Row>, from: int, mid: int, until: int)
    requires from - 1 <= mid <= until
    ensures SelectEvents(rows, from, until) == SelectEvents(rows, from, mid) + SelectEvents(rows, mid + 1, until)
    decreases until - mid
  {
    if mid < until {
      WindowSplits(rows, from, mid, until - 1);
    }
  }

  ghost predicate FramesInOrder(rows: seq<Row>) {
    forall i, j | 0 <= i <= j < |rows| :: rows[i].frame <= rows[j].frame
  }

  /** The rows of the window as they were inserted. */
  function InWindow(rows: seq<Row>, from: int, until: int): seq<Row> {
    if rows == [] then []
    else
      var rest := InWindow(rows[..|rows| - 1], from, until);
      var last := rows[|rows| - 1];
      if from <= last.frame <= until then rest + [last] else rest
  }

  lemma {:induction false} NoneAtFrame(rows: seq<Row>, f: int)
    requires forall i | 0 <= i < |rows| :: rows[i].frame < f
    ensures AtFrame(rows, f) == []
  {
    if rows != [] {
      NoneAtFrame(rows[..|rows| - 1], f);
    }
  }

  lemma {:induction false} SelectLast(rows: seq<Row>, from: int, until: int)
    requires rows != [] && FramesInOrder(rows)
    ensures var last := rows[|rows| - 1];
            SelectEvents(rows, from, until)
            == SelectEvents(rows[..|rows| - 1], from, until) + if from <= last.frame <= until then [last] else []
    decreases until - from
  {
    if from <= until {
      SelectLast(rows, from, until - 1);
      if until > rows[|rows| - 1].frame {
        NoneAtFrame(rows[..|rows| - 1], until);
      }
    }
  }

  /** Rows stored with frames in order come back in the order of insertion. */
  lemma {:induction false} SelectedInOrder(rows: seq<Row>, from: int, until: int)
    requires FramesInOrder(rows)
    ensures SelectEvents(rows, from, until) == InWindow(rows, from, until)
  {
    if rows == [] {
      NothingSelected(from, until);
    } else {
      SelectedInOrder(rows[..|rows| - 1], from, until);
      SelectLast(rows, from, until);
    }
  }

  lemma {:induction false} NothingSelected(from: int, until: int)
    ensures SelectEvents([], from, until) == []
    decreases until - from
  {
    if from <= until {
      NothingSelected(from, until - 1);
    }
  }

  // ---- Replay

  function Record(row: Row): LiveObject
    requires row.AllocRow?
  {
    LiveObject(row.addr, row.size, row.frame, row.typeId, row.callstackId)
  }

  /** The object shows what the row says. */
  predicate Shows(o: LiveObject, row: Row) {
    && row.AllocRow? && o.addr == row.addr && o.size == row.size && o.frame == row.frame
    && o.typeId == row.typeId && o.callstackId == row.callstackId
  }

  /** `emplace` keeps an object that is already there; `erase` of a missing one does nothing. */
  function Apply(live: Live, row: Row): Live {
    match row
    case AllocRow(_, addr, _, _, _) => if addr in live then live else live[addr := Record(row)]
    case FreeRow(_, addr, _) => live - {addr}
  }

  function ReplayFrom(live: Live, rows: seq<Row>): Live {
    if rows == [] then live else Apply(ReplayFrom(live, rows[..|rows| - 1]), rows[|rows| - 1])
  }

  function Replay(rows: seq<Row>): Live {
    ReplayFrom(map[], rows)
  }

  predicate IsAlloc(rows: seq<Row>, i: nat, a: Word64) {
    i < |rows| && rows[i].AllocRow? && rows[i].addr == a
  }

  predicate IsFree(rows: seq<Row>, i: nat, a: Word64) {
    i < |rows| && rows[i].FreeRow? && rows[i].addr == a
  }

  ghost predicate FreedBetween(rows: seq<Row>, a: Word64, i: int, j: int) {
    exists k: nat :: i < k < j && IsFree(rows, k, a)
  }

  /** Row i is the earliest allocation of a after its last free. */
  ghost predicate LiveFrom(rows: seq<Row>, a: Word64, i: nat) {
    && IsAlloc(rows, i, a)
    && !FreedBetween(rows, a, i, |rows|)
    && forall j: nat | j < i && IsAlloc(rows, j, a) :: FreedBetween(rows, a, j, i)
  }

  ghost predicate LiveSomewhere(rows: seq<Row>, a: Word64) {
    exists i: nat :: LiveFrom(rows, a, i)
  }

  lemma PrefixFreed(rows: seq<Row>, a: Word64, i: int, j: int)
    requires rows != [] && j < |rows|
    ensures FreedBetween(rows[..|rows| - 1], a, i, j) <==> FreedBetween(rows, a, i, j)
  {
    var init := rows[..|rows| - 1];
    if FreedBetween(rows, a, i, j) {
      var k: nat :| i < k < j && IsFree(rows, k, a);
      assert IsFree(init, k, a);
    }
    if FreedBetween(init, a, i, j) {
      var k: nat :| i < k < j && IsFree(init, k, a);
      assert IsFree(rows, k, a);
    }
  }

  lemma LastFreed(rows: seq<Row>, a: Word64, i: int)
    requires rows != [] && i < |rows| - 1
    ensures FreedBetween(rows, a, i, |rows|) <==>
              FreedBetween(rows[..|rows| - 1], a, i, |rows| - 1) || IsFree(rows, |rows| - 1, a)
  {
    PrefixFreed(rows, a, i, |rows| - 1);
    if FreedBetween(rows, a, i, |rows|) {
      var k: nat :| i < k < |rows| && IsFree(rows, k, a);
      assert k < |rows| - 1 ==> FreedBetween(rows, a, i, |rows| - 1);
    }
  }

  /** What the replay holds for one address, both ways round. */
  lemma {:induction false} ReplayHolds(rows: seq<Row>, a: Word64)
    ensures a in Replay(rows) ==> exists i: nat :: LiveFrom(rows, a, i) && Shows(Replay(rows)[a], rows[i])
    ensures a !in Replay(rows) ==> forall j: nat | IsAlloc(rows, j, a) :: FreedBetween(rows, a, j, |rows|)
  {
    if rows != [] {
      var n := |rows| - 1;
      var init, last := rows[..n], rows[n];
      ReplayHolds(init, a);
      if a !in Replay(rows) {
        forall j: nat | IsAlloc(rows, j, a) ensures FreedBetween(rows, a, j, |rows|) {
          if j < n {
            assert IsAlloc(init, j, a);
            LastFreed(rows, a, j);
          }
        }
      } else if a in Replay(init) {
        var i: nat :| LiveFrom(init, a, i) && Shows(Replay(init)[a], init[i]);
        StillLive(rows, a, i);
      } else {
        assert IsAlloc(rows, n, a);
        forall j: nat | j < n && IsAlloc(rows, j, a) ensures FreedBetween(rows, a, j, n) {
          assert IsAlloc(init, j, a);
          PrefixFreed(rows, a, j, n);
        }
        assert LiveFrom(rows, a, n);
      }
    }
  }

  lemma StillLive(rows: seq<Row>, a: Word64, i: nat)
    requires rows != [] && LiveFrom(rows[..|rows| - 1], a, i) && !IsFree(rows, |rows| - 1, a)
    ensures LiveFrom(rows, a, i)
  {
    var init := rows[..|rows| - 1];
    LastFreed(rows, a, i);
    forall j: nat | j < i && IsAlloc(rows, j, a) ensures FreedBetween(rows, a, j, i) {
      assert IsAlloc(init, j, a);
      PrefixFreed(rows, a, j, i);
    }
  }

  lemma LiveFromUnique(rows: seq<Row>, a: Word64, i: nat, j: nat)
    requires LiveFrom(rows, a, i) && LiveFrom(rows, a, j)
    ensures i == j
  {
    if i < j || j < i {
      assert false;
    }
  }

  /** An address is live iff it has an allocation after its last free, shown as the earliest such one. */
  lemma LiveExactly(rows: seq<Row>, a: Word64)
    ensures a in Replay(rows) <==> LiveSomewhere(rows, a)
    ensures forall i: nat | LiveFrom(rows, a, i) :: a in Replay(rows) && Shows(Replay(rows)[a], rows[i])
  {
    ReplayHolds(rows, a);
    forall i: nat | LiveFrom(rows, a, i) ensures a in Replay(rows) && Shows(Replay(rows)[a], rows[i]) {
      if a in Replay(rows) {
        var j: nat :| LiveFrom(rows, a, j) && Shows(Replay(rows)[a], rows[j]);
        LiveFromUnique(rows, a, i, j);
      } else {
        assert false;
      }
    }
  }

  // ---- Concatenated windows

  lemma {:induction false} ReplayConcat(live: Live, first: seq<Row>, second: seq<Row>)
    ensures ReplayFrom(live, first + second) == ReplayFrom(ReplayFrom(live, first), second)
  {
    if second == [] {
      assert first + second == first;
    } else {
      var all := first + second;
      assert all[..|all| - 1] == first + second[..|second| - 1];
      ReplayConcat(live, first, second[..|second| - 1]);
    }
  }

  ghost predicate Frees(rows: seq<Row>, a: Word64) {
    exists k: nat :: IsFree(rows, k, a)
  }

  /** The merged answer: a free in the second part forgets the first part; otherwise the first part's record wins. */
  ghost predicate Merged(first: Live, second: seq<Row>, live: Live, a: Word64) {
    if !Frees(second, a) && a in first then a in live && live[a] == first[a]
    else (a in live <==> a in Replay(second)) && (a in live ==> live[a] == Replay(second)[a])
  }

  /** The result for a concatenated window is determined by the first part's result and the second part's events. */
  lemma {:induction false} ReplayMerges(first: Live, second: seq<Row>, a: Word64)
    ensures Merged(first, second, ReplayFrom(first, second), a)
  {
    if second != [] {
      var n := |second| - 1;
      var init := second[..n];
      ReplayMerges(first, init, a);
      if Frees(init, a) {
        var k: nat :| IsFree(init, k, a);
        assert IsFree(second, k, a);
      }
      if Frees(second, a) && !Frees(init, a) {
        var k: nat :| IsFree(second, k, a);
        assert k < n ==> IsFree(init, k, a);
      }
      assert second[n].FreeRow? && second[n].addr == a ==> IsFree(second, n, a);
    }
  }

  lemma WindowsMerge(rows: seq<Row>, from: int, mid: int, until: int, a: Word64)
    requires from - 1 <= mid <= until
    ensures Merged(
              Replay(SelectEvents(rows, from, mid)), SelectEvents(rows, mid + 1, until),
              Replay(SelectEvents(rows, from, until)), a)
  {
    var first, second := SelectEvents(rows, from, mid), SelectEvents(rows, mid + 1, until);
    WindowSplits(rows, from, mid, until);
    ReplayConcat(map[], first, second);
    ReplayMerges(Replay(first), second, a);
  }

  // ---- The code

  /** The objects are the map's values, each once. */
  ghost predicate Lists(objects: seq<LiveObject>, live: Live) {
    && |objects| == |live|
    && (forall a | a in live :: live[a] in objects)
    && (forall i | 0 <= i < |objects| :: objects[i] in live.Values)
  }

  /** The progress function stops a replay of n rows. */
  ghost predicate Stops(progress: Option<(nat, nat) -> bool>, n: nat) {
    progress.Some? && exists i: nat :: i < n && !progress.value(i, n)
  }

  method GetLiveObjects(rows: seq<Row>, from: int, until: int, progress: Option<(nat, nat) -> bool>)
      returns (objects: seq<LiveObject>)
    ensures var selected := SelectEvents(rows, from, until);
            if Stops(progress, |selected|) then objects == [] else Lists(objects, Replay(selected))
  {
    var live, stopped := ReplayRows(SelectEvents(rows, from, until), progress);
    objects := [];
    if !stopped {
      objects := Flatten(live);
    }
  }

  /** The loop over the selected rows, which asks the progress function after each of them. */
  method ReplayRows(selected: seq<Row>, progress: Option<(nat, nat) -> bool>) returns (live: Live, stopped: bool)
    ensures stopped <==> Stops(progress, |selected|)
    ensures !stopped ==> live == Replay(selected)
  {
    live := map[];
    var i := 0;
    while i < |selected|
      invariant i <= |selected| && live == Replay(selected[..i])
      invariant progress.Some? ==> forall j: nat | j < i :: progress.value(j, |selected|)
    {
      assert selected[..i + 1][..i] == selected[..i];
      live := Apply(live, selected[i]);
      if progress.Some? && !progress.value(i, |selected|) {
        return live, true;
      }
      i := i + 1;
    }
    assert selected[..i] == selected;
    stopped := false;
  }

  method Flatten(live: Live) returns (objects: seq<LiveObject>)
    ensures Lists(objects, live)
  {
    objects := [];
    var keys := live.Keys;
    while keys != {}
      invariant keys <= live.Keys && |objects| + |keys| == |live.Keys|
      invariant forall a | a in live && a !in keys :: live[a] in objects
      invariant forall i | 0 <= i < |objects| :: objects[i] in live.Values
      decreases |keys|
    {
      var a :| a in keys;
      objects := objects + [live[a]];
      keys := keys - {a};
    }
  }
}
