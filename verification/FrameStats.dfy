/**
  Answering a window of frame statistics (client/src/mono_profiler_client.cpp, `get_stats`; the two queries it uses are
  in client/src/db_queries.cpp). Frames without a row count nothing and keep the latest size.
 */
module FrameStats {
  import opened EventLog
  import opened EventStore
  import opened Words
  import opened Wrappers

  /** The frames with a row in [from, until], ascending: what `select_stats` yields. */
  ghost predicate Selected(stats: map<Word64, Stats>, from: nat, until: nat, frames: seq<Word64>) {
    && (forall i | 0 <= i < |frames| :: from <= frames[i] <= until && frames[i] in stats)
    && (forall i, j | 0 <= i < j < |frames| :: frames[i] < frames[j])
    && (forall f: Word64 | from <= f <= until && f in stats :: f in frames)
  }

  function SelectFrames(stats: map<Word64, Stats>, from: nat, until: nat): (frames: seq<Word64>)
    requires until < TWO_64
    ensures Selected(stats, from, until, frames)
    decreases until + 1 - from
  {
    if from > until then []
    else
      var rest := SelectFrames(stats, from + 1, until);
      SelectedMore(stats, from, until, rest);
      if from in stats then [from] + rest else rest
  }

  lemma SelectedMore(stats: map<Word64, Stats>, from: nat, until: nat, rest: seq<Word64>)
    requires from <= until < TWO_64 && Selected(stats, from + 1, until, rest)
    ensures Selected(stats, from, until, if from in stats then [from] + rest else rest)
  {
    var frames := if from in stats then [from] + rest else rest;
    forall f: Word64 | from <= f <= until && f in stats ensures f in frames {
      if f == from {
        assert frames[0] == f;
      } else {
        assert f in rest;
      }
    }
    if from in stats {
      assert forall i | 0 < i < |frames| :: frames[i] == rest[i - 1];
    }
  }

  /** The size in the latest row at or before frame f: `select_last_good_size`. */
  function LatestSize(stats: map<Word64, Stats>, f: nat): Option<int>
    requires f < TWO_64
  {
    if f in stats then Some(stats[f].size) else if f == 0 then None else LatestSize(stats, f - 1)
  }

  /** What the answer must say of frame f. Sizes are signed in the table and unsigned in the answer. */
  function SizeAt(stats: map<Word64, Stats>, f: nat): Word64
    requires f < TWO_64
  {
    match LatestSize(stats, f) case Some(size) => Wrap(size) case None => 0
  }

  function AllocsAtFrame(stats: map<Word64, Stats>, f: Word64): nat {
    if f in stats then stats[f].allocs else 0
  }

  function FreesAtFrame(stats: map<Word64, Stats>, f: Word64): nat {
    if f in stats then stats[f].frees else 0
  }

  /** The latest size is that of a row, and no row lies between. */
  lemma {:induction false} LatestSizeMeans(stats: map<Word64, Stats>, f: Word64, g: Word64)
    requires g <= f && forall h: Word64 | g < h <= f :: h !in stats
    ensures g in stats ==> LatestSize(stats, f) == Some(stats[g].size)
    ensures LatestSize(stats, f) == LatestSize(stats, g)
    decreases f
  {
    if g < f {
      assert f !in stats;
      LatestSizeMeans(stats, f - 1, g);
    }
  }

  /** The three vectors after n frames. */
  ghost predicate Answers(
      stats: map<Word64, Stats>, from: Word64, n: nat, allocs: seq<nat>, frees: seq<nat>, sizes: seq<Word64>) {
    && |allocs| == |frees| == |sizes| == n && from + n <= TWO_64
    && (forall i | 0 <= i < n :: allocs[i] == AllocsAtFrame(stats, from + i))
    && (forall i | 0 <= i < n :: frees[i] == FreesAtFrame(stats, from + i))
    && (forall i | 0 <= i < n :: sizes[i] == SizeAt(stats, from + i))
  }

  /** A frame without a row. */
  lemma GapFrame(
      stats: map<Word64, Stats>, from: Word64, n: nat, allocs: seq<nat>, frees: seq<nat>, sizes: seq<Word64>,
      size: Word64)
    requires Answers(stats, from, n, allocs, frees, sizes) && from + n < TWO_64 && from + n !in stats
    requires size == SizeAt(stats, from + n)
    ensures Answers(stats, from, n + 1, allocs + [0], frees + [0], sizes + [size])
  {
  }

  lemma RowFrame(
      stats: map<Word64, Stats>, from: Word64, n: nat, allocs: seq<nat>, frees: seq<nat>, sizes: seq<Word64>)
    requires Answers(stats, from, n, allocs, frees, sizes) && from + n < TWO_64 && from + n in stats
    ensures var row := stats[from + n];
            Answers(stats, from, n + 1, allocs + [row.allocs], frees + [row.frees], sizes + [Wrap(row.size)])
  {
  }

  /** No rows in [first, next), where the size is the same throughout. */
  ghost predicate Quiet(stats: map<Word64, Stats>, first: nat, next: nat, size: Word64) {
    forall f: Word64 | first <= f < next :: f !in stats && SizeAt(stats, f) == size
  }

  /** The loops that fill a gap: frames up to but not including `next` repeat a size. */
  method FillGap(
      ghost stats: map<Word64, Stats>, ghost from: Word64, allocs: seq<nat>, frees: seq<nat>, sizes: seq<Word64>,
      first: nat, next: Word64, size: Word64)
      returns (allocs': seq<nat>, frees': seq<nat>, sizes': seq<Word64>)
    requires from <= first <= next && Answers(stats, from, first - from, allocs, frees, sizes)
    requires Quiet(stats, first, next, size)
    ensures Answers(stats, from, next - from, allocs', frees', sizes')
  {
    allocs', frees', sizes' := allocs, frees, sizes;
    var f := first;
    while f < next
      invariant first <= f <= next && Answers(stats, from, f - from, allocs', frees', sizes')
    {
      GapFrame(stats, from, f - from, allocs', frees', sizes', size);
      allocs', frees', sizes' := allocs' + [0], frees' + [0], sizes' + [size];
      f := f + 1;
    }
  }

  lemma NoRowBetween(
      stats: map<Word64, Stats>, from: Word64, until: Word64, frames: seq<Word64>, k: nat, f: Word64)
    requires Selected(stats, from, until, frames) && k <= |frames|
    requires k == 0 || frames[k - 1] < f
    requires if k < |frames| then f < frames[k] else f <= until
    requires from <= f
    ensures f !in stats
  {
    if f in stats && f <= until {
      var j :| 0 <= j < |frames| && frames[j] == f;
      if j < k - 1 || j > k {
        assert false;
      }
    }
  }

  /** The gap before the k-th selected row (or after the last one) has no rows, and its sizes are that of its start. */
  lemma GapBefore(
      stats: map<Word64, Stats>, from: Word64, until: Word64, frames: seq<Word64>, k: nat, start: Word64, next: nat)
    requires Selected(stats, from, until, frames) && k <= |frames|
    requires start == (if k == 0 then from else frames[k - 1])
    requires next <= (if k < |frames| then frames[k] else until + 1)
    ensures Quiet(stats, start + 1, next, SizeAt(stats, start))
    ensures k == 0 && start < next ==> Quiet(stats, start, next, SizeAt(stats, start))
  {
    forall f: Word64 | start + 1 <= f < next ensures f !in stats && SizeAt(stats, f) == SizeAt(stats, start) {
      forall h: Word64 | start < h <= f ensures h !in stats {
        NoRowBetween(stats, from, until, frames, k, h);
      }
      LatestSizeMeans(stats, f, start);
    }
    if k == 0 && start < next {
      NoRowBetween(stats, from, until, frames, 0, start);
    }
  }

  /** The vectors after k of the selected rows. */
  ghost predicate Progress(
      stats: map<Word64, Stats>, from: Word64, frames: seq<Word64>, k: nat, prev: Word64,
      allocs: seq<nat>, frees: seq<nat>, sizes: seq<Word64>)
    requires k <= |frames|
  {
    && (k == 0 ==> prev == from && allocs == [] && frees == [] && sizes == [])
    && (k > 0 ==> from <= prev == frames[k - 1] && Answers(stats, from, prev - from + 1, allocs, frees, sizes))
  }

  function Max(a: int, b: int): int {
    if b > a then b else a
  }

  /** m is the largest of some numbers and 0. */
  ghost predicate IsMax(numbers: seq<int>, m: int) {
    m >= 0 && (m == 0 || m in numbers) && forall i | 0 <= i < |numbers| :: numbers[i] <= m
  }

  ghost function Column(stats: map<Word64, Stats>, frames: seq<Word64>, get: Stats -> int): (column: seq<int>)
    requires forall i | 0 <= i < |frames| :: frames[i] in stats
    ensures |column| == |frames| && forall i | 0 <= i < |frames| :: column[i] == get(stats[frames[i]])
  {
    seq(|frames|, i requires 0 <= i < |frames| => get(stats[frames[i]]))
  }

  ghost predicate Maxima(
      stats: map<Word64, Stats>, frames: seq<Word64>, maxAllocs: nat, maxFrees: nat, maxSize: int) {
    && (forall i | 0 <= i < |frames| :: frames[i] in stats)
    && IsMax(Column(stats, frames, (row: Stats) => row.allocs), maxAllocs)
    && IsMax(Column(stats, frames, (row: Stats) => row.frees), maxFrees)
    && IsMax(Column(stats, frames, (row: Stats) => row.size), maxSize)
  }

  lemma MaxStep(stats: map<Word64, Stats>, frames: seq<Word64>, k: nat, get: Stats -> int, m: int)
    requires k < |frames| && forall i | 0 <= i < |frames| :: frames[i] in stats
    requires IsMax(Column(stats, frames[..k], get), m)
    ensures IsMax(Column(stats, frames[..k + 1], get), Max(m, get(stats[frames[k]])))
  {
    var column, column' := Column(stats, frames[..k], get), Column(stats, frames[..k + 1], get);
    assert column' == column + [get(stats[frames[k]])];
  }

  lemma MoreMaxima(
      stats: map<Word64, Stats>, frames: seq<Word64>, k: nat, maxAllocs: nat, maxFrees: nat, maxSize: int)
    requires k < |frames| && forall i | 0 <= i < |frames| :: frames[i] in stats
    requires Maxima(stats, frames[..k], maxAllocs, maxFrees, maxSize)
    ensures var row := stats[frames[k]];
            Maxima(stats, frames[..k + 1], Max(maxAllocs, row.allocs), Max(maxFrees, row.frees), Max(maxSize, row.size))
  {
    MaxStep(stats, frames, k, (row: Stats) => row.allocs, maxAllocs);
    MaxStep(stats, frames, k, (row: Stats) => row.frees, maxFrees);
    MaxStep(stats, frames, k, (row: Stats) => row.size, maxSize);
  }

  /** One round of the loop over the rows: fill the gap, then take the row. */
  method ReadRow(
      stats: map<Word64, Stats>, from: Word64, ghost until: Word64, ghost frames: seq<Word64>, ghost k: nat,
      first: bool, prev: Word64, frame: Word64, lastKnown: Word64,
      allocs: seq<nat>, frees: seq<nat>, sizes: seq<Word64>)
      returns (allocs': seq<nat>, frees': seq<nat>, sizes': seq<Word64>)
    requires Selected(stats, from, until, frames) && k < |frames| && frame == frames[k] && frame in stats
    requires Progress(stats, from, frames, k, prev, allocs, frees, sizes) && (first <==> k == 0)
    requires lastKnown == SizeAt(stats, from)
    requires prev < NO_FRAME
    ensures Progress(stats, from, frames, k + 1, frame, allocs', frees', sizes')
  {
    allocs', frees', sizes' := allocs, frees, sizes;
    GapBefore(stats, from, until, frames, k, prev, frame);
    assert k > 0 ==> prev < frame;
    if first && frame > prev {
      allocs', frees', sizes' := FillGap(stats, from, allocs', frees', sizes', from, frame, lastKnown);
    } else if frame > prev + 1 {
      allocs', frees', sizes' :=
        FillGap(stats, from, allocs', frees', sizes', prev + 1, frame, sizes'[|sizes'| - 1]);
    }
    RowFrame(stats, from, frame - from, allocs', frees', sizes');
    allocs', frees' := allocs' + [stats[frame].allocs], frees' + [stats[frame].frees];
    sizes' := sizes' + [Wrap(stats[frame].size)];
  }

  /** The loop over the selected rows. */
  method ReadRows(stats: map<Word64, Stats>, from: Word64, ghost until: Word64, frames: seq<Word64>)
      returns (
        allocs: seq<nat>, frees: seq<nat>, sizes: seq<Word64>, prev: Word64,
        maxAllocs: nat, maxFrees: nat, maxSize: int)
    requires Selected(stats, from, until, frames) && NO_FRAME !in stats
    requires frames != [] ==> from < NO_FRAME
    ensures Progress(stats, from, frames, |frames|, prev, allocs, frees, sizes)
    ensures Maxima(stats, frames, maxAllocs, maxFrees, maxSize)
  {
    var lastKnown := SizeAt(stats, from);
    allocs, frees, sizes, prev := [], [], [], from;
    maxAllocs, maxFrees, maxSize := 0, 0, 0;
    var first, k := true, 0;
    while k < |frames|
      invariant k <= |frames| && (first <==> k == 0) && (k < |frames| ==> prev < NO_FRAME)
      invariant Maxima(stats, frames[..k], maxAllocs, maxFrees, maxSize)
      invariant Progress(stats, from, frames, k, prev, allocs, frees, sizes)
    {
      var frame := frames[k];
      allocs, frees, sizes :=
        ReadRow(stats, from, until, frames, k, first, prev, frame, lastKnown, allocs, frees, sizes);
      MoreMaxima(stats, frames, k, maxAllocs, maxFrees, maxSize);
      maxAllocs, maxFrees := Max(maxAllocs, stats[frame].allocs), Max(maxFrees, stats[frame].frees);
      maxSize := Max(maxSize, stats[frame].size);
      first := false;
      prev := frame;
      k := k + 1;
    }
    assert frames[..k] == frames;
  }

  /**
    If the window holds a row, the answer covers every frame from `from` to the end of the window or of the recording:
    a frame's counts are its row's or 0, and its size is the latest one known. If it holds none, the answer is empty.
    A window with a row that ends, as the recording does, at 2^64 - 1 is excluded: by NeverEnds the last loop would not
    end.
   */
  method GetStats(stats: map<Word64, Stats>, maxFrame: Word64, from: Word64, until: Word64)
      returns (
        allocs: seq<nat>, frees: seq<nat>, maxAllocs: nat, maxFrees: nat, sizes: seq<Word64>, maxSize: int)
    requires forall f | f in stats :: f <= maxFrame && f != NO_FRAME
    requires HasRow(stats, from, until) ==> until < NO_FRAME || maxFrame < NO_FRAME
    ensures var end := if until < maxFrame then until else maxFrame;
            if HasRow(stats, from, until)
            then from <= end && Answers(stats, from, end - from + 1, allocs, frees, sizes)
            else allocs == [] && frees == [] && sizes == []
    ensures Maxima(stats, SelectFrames(stats, from, until), maxAllocs, maxFrees, maxSize)
  {
    var frames := SelectFrames(stats, from, until);
    var prev;
    allocs, frees, sizes, prev, maxAllocs, maxFrees, maxSize := ReadRows(stats, from, until, frames);
    if frames == [] {
      assert !HasRow(stats, from, until);
    } else {
      assert frames[0] in stats;
      assert prev in stats;
    }
    if prev < until && sizes != [] {
      allocs, frees, sizes := FillToEnd(stats, from, until, maxFrame, frames, prev, allocs, frees, sizes);
    }
  }

  /** The guard of the last loop of `get_stats`. */
  predicate LastGuard(f: Word64, until: Word64, maxFrame: Word64) {
    f <= until && f <= maxFrame
  }

  /** The last loop is entered with the frame behind the last row. */
  ghost predicate LastLoopEntered(stats: map<Word64, Stats>, from: Word64, until: Word64) {
    var frames := SelectFrames(stats, from, until);
    frames != [] && frames[|frames| - 1] < until
  }

  /**
    Where the last loop does not end: it is entered and its guard holds of every frame number exactly when window and
    recording both end at 2^64 - 1 and the window holds a row.
   */
  lemma NeverEnds(stats: map<Word64, Stats>, maxFrame: Word64, from: Word64, until: Word64)
    requires forall f | f in stats :: f <= maxFrame && f != NO_FRAME
    ensures LastLoopEntered(stats, from, until) && (forall f: Word64 :: LastGuard(f, until, maxFrame))
       <==> HasRow(stats, from, until) && until == NO_FRAME && maxFrame == NO_FRAME
  {
    var frames := SelectFrames(stats, from, until);
    if forall f: Word64 :: LastGuard(f, until, maxFrame) {
      assert LastGuard(NO_FRAME, until, maxFrame);
    }
    if HasRow(stats, from, until) {
      var f: Word64 :| from <= f <= until && f in stats;
      assert f in frames;
    }
    if frames != [] {
      assert frames[|frames| - 1] in stats;
    }
  }

  ghost predicate HasRow(stats: map<Word64, Stats>, from: Word64, until: Word64) {
    exists f: Word64 :: from <= f <= until && f in stats
  }

  /** The last loop, up to the end of the window or of the recording. */
  method FillToEnd(
      ghost stats: map<Word64, Stats>, from: Word64, until: Word64, maxFrame: Word64, ghost frames: seq<Word64>,
      prev: Word64, allocs: seq<nat>, frees: seq<nat>, sizes: seq<Word64>)
      returns (allocs': seq<nat>, frees': seq<nat>, sizes': seq<Word64>)
    requires Selected(stats, from, until, frames) && frames != []
    requires Progress(stats, from, frames, |frames|, prev, allocs, frees, sizes)
    requires prev <= maxFrame && prev < until && (until < NO_FRAME || maxFrame < NO_FRAME)
    ensures var end := if until < maxFrame then until else maxFrame;
            from <= end && Answers(stats, from, end - from + 1, allocs', frees', sizes')
  {
    var end: nat := if until < maxFrame then until else maxFrame;
    GapBefore(stats, from, until, frames, |frames|, prev, end + 1);
    allocs', frees', sizes' := FillGap(stats, from, allocs, frees, sizes, prev + 1, end + 1, sizes[|sizes| - 1]);
  }

  // ---- What the answers say about the received events

  lemma {:induction false} NoEventAt(events: seq<Event>, f: Word64)
    requires !HasFrame(events, f)
    ensures AllocatedUpTo(events, f) == if f == 0 then 0 else AllocatedUpTo(events, f - 1)
    ensures FreedUpTo(events, f) == if f == 0 then 0 else FreedUpTo(events, f - 1)
  {
    if events != [] {
      assert events[|events| - 1].frame != f;
      forall i | 0 <= i < |events| - 1 ensures Init(events)[i].frame != f {
        assert events[i].frame != f;
      }
      NoEventAt(Init(events), f);
    }
  }

  /** Before the current frame, the reported size of every frame is the true balance at its end. */
  lemma {:induction false} SizeIsTrue(stats: map<Word64, Stats>, received: seq<Event>, current: Word64, f: Word64)
    requires RowsOk(stats, received, current) && f < current
    ensures SizeAt(stats, f) == Wrap(AllocatedUpTo(received, f) - FreedUpTo(received, f))
  {
    if f !in stats {
      assert !HasFrame(received, f);
      NoEventAt(received, f);
      if f > 0 {
        SizeIsTrue(stats, received, current, f - 1);
      }
    }
  }

  /** And so are its counts. */
  lemma CountsAreTrue(stats: map<Word64, Stats>, received: seq<Event>, current: Word64, f: Word64)
    requires RowsOk(stats, received, current) && f < current
    ensures AllocsAtFrame(stats, f) == AllocsAt(received, f)
    ensures FreesAtFrame(stats, f) == FreesAt(received, f)
  {
    if f !in stats {
      assert !HasFrame(received, f);
      NewFrame(received, f);
    }
  }
}
