/**
  One 64 KB region of the trampoline pool (external/detours/src/detours.cpp): which addresses are usable slots, and the
  free list threaded through the `pbRemain` fields of the slots that are not in use. Sizes are those of x64.
 */
module TrampolineRegion {
  import opened Arithmetic
  import opened Words

  const REGION_SIZE: nat := 0x1_0000
  const SLOT_SIZE: nat := 96
  const SLOTS: nat := REGION_SIZE / SLOT_SIZE - 1
  const NULL: Word64 := 0

  /** What `memset(…, 0xcc, …)` leaves in an address field. */
  const FILLED: Word64 := 0xcccc_cccc_cccc_cccc

  /** The `pbRemain` fields; memory not written yet is zero. */
  type Links = map<Word64, Word64>

  function Remain(links: Links, a: Word64): Word64 {
    if a in links then links[a] else NULL
  }

  /** Regions are 64 KB aligned and lie in the lower half of the address space. */
  predicate IsBase(b: Word64) {
    0 < b < HALF && b % REGION_SIZE == 0
  }

  function SlotAddress(b: Word64, i: nat): Word64
    requires IsBase(b) && i < SLOTS
  {
    b + SLOT_SIZE * (i + 1)
  }

  predicate InRegion(b: Word64, a: Word64) {
    b <= a < b + REGION_SIZE
  }

  /** The slots that can be handed out. The code puts all but the first two on the free list. */
  predicate Usable(b: Word64, a: Word64) {
    b < a && (a - b) % SLOT_SIZE == 0 && 3 <= (a - b) / SLOT_SIZE <= SLOTS
  }

  lemma UsableInRegion(b: Word64, a: Word64)
    requires IsBase(b) && Usable(b, a)
    ensures InRegion(b, a) && a != b && a - a % REGION_SIZE == b
  {
    var q := (a - b) / SLOT_SIZE;
    assert a - b == q * SLOT_SIZE;
    InRegionBase(b, a);
  }

  /** The region of an address inside it. */
  lemma InRegionBase(b: Word64, a: Word64)
    requires IsBase(b) && InRegion(b, a)
    ensures a - a % REGION_SIZE == b
  {
    DivModUnique(a, REGION_SIZE, b / REGION_SIZE, a - b);
  }

  lemma UsableSlot(b: Word64, i: nat)
    requires IsBase(b) && i < SLOTS
    ensures Usable(b, SlotAddress(b, i)) <==> i >= 2
    ensures InRegion(b, SlotAddress(b, i))
  {
    DivModUnique(SlotAddress(b, i) - b, SLOT_SIZE, i + 1, 0);
  }

  lemma SlotNumber(b: Word64, a: Word64) returns (i: nat)
    requires IsBase(b) && Usable(b, a)
    ensures 2 <= i < SLOTS && a == SlotAddress(b, i)
  {
    i := (a - b) / SLOT_SIZE - 1;
  }

  // ---- The free list

  ghost predicate Linked(head: Word64, links: Links, list: seq<Word64>) {
    && head == (if list == [] then NULL else list[0])
    && (forall i, j | 0 <= i < |list| && 0 <= j < |list| && j == i + 1 :: Remain(links, list[i]) == list[j])
    && (list != [] ==> Remain(links, list[|list| - 1]) == NULL)
  }

  ghost predicate Distinct(list: seq<Word64>) {
    forall i, j | 0 <= i < j < |list| :: list[i] != list[j]
  }

  /** Every usable slot is in use or on the free list, not both; a slot in use points out of the region. */
  ghost predicate RegionOk(b: Word64, head: Word64, links: Links, list: seq<Word64>, inUse: set<Word64>) {
    && IsBase(b)
    && Linked(head, links, list)
    && Distinct(list)
    && (forall i | 0 <= i < |list| :: Usable(b, list[i]))
    && (forall a: Word64 | Usable(b, a) :: a in list <==> a !in inUse)
    && (forall a: Word64 | Usable(b, a) && a in inUse :: Remain(links, a) != NULL && !InRegion(b, Remain(links, a)))
    && Remain(links, SlotAddress(b, 0)) == NULL && Remain(links, SlotAddress(b, 1)) == NULL
  }

  /** Changes outside a region do not matter to it. */
  lemma OtherRegion(
      b: Word64, head: Word64, links: Links, links': Links, list: seq<Word64>, inUse: set<Word64>, inUse': set<Word64>)
    requires RegionOk(b, head, links, list, inUse)
    requires forall a: Word64 | InRegion(b, a) :: Remain(links', a) == Remain(links, a) && (a in inUse' <==> a in inUse)
    ensures RegionOk(b, head, links', list, inUse')
  {
    forall a: Word64 | Usable(b, a) ensures InRegion(b, a) {
      UsableInRegion(b, a);
    }
    UsableSlot(b, 0);
    UsableSlot(b, 1);
    forall i, j | 0 <= i < |list| && 0 <= j < |list| && j == i + 1 ensures Remain(links', list[i]) == list[j] {
      assert Usable(b, list[i]);
    }
    assert list != [] ==> Usable(b, list[|list| - 1]);
  }

  /** Taking the head of the free list. */
  lemma TakeSlot(b: Word64, head: Word64, links: Links, list: seq<Word64>, inUse: set<Word64>)
    requires RegionOk(b, head, links, list, inUse) && head != NULL
    ensures list != [] && head == list[0] && Usable(b, head) && head !in inUse
    ensures RegionOk(b, Remain(links, head), links[head := FILLED], list[1..], inUse + {head})
  {
    var links', rest := links[head := FILLED], list[1..];
    assert Usable(b, list[0]);
    UsableInRegion(b, head);
    forall i, j | 0 <= i < |rest| && 0 <= j < |rest| && j == i + 1 ensures Remain(links', rest[i]) == rest[j] {
      assert rest[i] == list[i + 1] && rest[j] == list[j + 1];
    }
    assert |list| > 1 ==> Remain(links, list[0]) == list[1];
    forall a: Word64 | Usable(b, a) ensures a in rest <==> a !in inUse + {head} {
      if a in rest {
        var i :| 0 <= i < |rest| && rest[i] == a;
        assert list[i + 1] == a;
      }
      assert list == [head] + rest;
    }
  }

  /** Putting a slot back. */
  lemma ReturnSlot(b: Word64, head: Word64, links: Links, list: seq<Word64>, inUse: set<Word64>, t: Word64)
    requires RegionOk(b, head, links, list, inUse) && Usable(b, t) && t in inUse
    ensures RegionOk(b, t, links[t := head], [t] + list, inUse - {t})
  {
    var links', list' := links[t := head], [t] + list;
    assert t !in list;
    forall i, j | 0 <= i < |list'| && 0 <= j < |list'| && j == i + 1 ensures Remain(links', list'[i]) == list'[j] {
      if i > 0 {
        assert list'[i] == list[i - 1] && list'[j] == list[j - 1];
      }
    }
    forall a: Word64 | Usable(b, a) ensures a in list' <==> a !in inUse - {t} {
      if a in list {
        var i :| 0 <= i < |list| && list[i] == a;
        assert list'[i + 1] == a;
      }
      assert list'[0] == t;
    }
    UsableSlot(b, 0);
    UsableSlot(b, 1);
  }

  // ---- A new region

  /** The slots from number i to the last. */
  function SlotsFrom(b: Word64, i: nat): (list: seq<Word64>)
    requires IsBase(b) && i <= SLOTS
    ensures |list| == SLOTS - i
    ensures forall k | 0 <= k < |list| :: list[k] == SlotAddress(b, i + k)
    decreases SLOTS - i
  {
    if i == SLOTS then [] else [SlotAddress(b, i)] + SlotsFrom(b, i + 1)
  }

  /** The loop that threads a new region's free list, from the last slot down to number 2. */
  method Thread(b: Word64, links: Links) returns (head: Word64, links': Links, ghost list: seq<Word64>)
    requires IsBase(b) && forall a: Word64 | InRegion(b, a) :: Remain(links, a) == NULL
    ensures RegionOk(b, head, links', list, {}) && |list| == SLOTS - 2
    ensures head == SlotAddress(b, 2)
    ensures forall a: Word64 | !InRegion(b, a) :: Remain(links', a) == Remain(links, a)
    ensures forall a | a in links' :: a in links || InRegion(b, a)
  {
    links' := links;
    head := NULL;
    var i := SLOTS - 1;
    ThreadStart(b, links);
    while i > 1
      invariant 1 <= i <= SLOTS - 1 && Threading(b, links, head, links', i)
    {
      var slot := SlotAddress(b, i);
      ThreadStep(b, links, head, links', i);
      links' := links'[slot := head];
      head := slot;
      i := i - 1;
    }
    list := ThreadEnd(b, links, head, links');
  }

  /** The slots above number i are linked, and nothing else was touched. */
  ghost predicate Threading(b: Word64, links: Links, head: Word64, links': Links, i: nat)
    requires IsBase(b) && i < SLOTS
  {
    && Linked(head, links', SlotsFrom(b, i + 1))
    && Untouched(b, links, links', i)
    && forall a | a in links' :: a in links || InRegion(b, a)
  }

  lemma ThreadStart(b: Word64, links: Links)
    requires IsBase(b)
    ensures Threading(b, links, NULL, links, SLOTS - 1)
  {
    assert SlotsFrom(b, SLOTS) == [];
  }

  lemma ThreadStep(b: Word64, links: Links, head: Word64, links': Links, i: nat)
    requires IsBase(b) && 0 < i < SLOTS && Threading(b, links, head, links', i)
    ensures Threading(b, links, SlotAddress(b, i), links'[SlotAddress(b, i) := head], i - 1)
  {
    LinkSlot(b, head, links', i);
    StillUntouched(b, links, links', i, head);
  }

  lemma ThreadEnd(b: Word64, links: Links, head: Word64, links': Links) returns (list: seq<Word64>)
    requires IsBase(b) && forall a: Word64 | InRegion(b, a) :: Remain(links, a) == NULL
    requires Threading(b, links, head, links', 1)
    ensures RegionOk(b, head, links', list, {}) && |list| == SLOTS - 2 && head == SlotAddress(b, 2)
    ensures forall a: Word64 | !InRegion(b, a) :: Remain(links', a) == Remain(links, a)
  {
    UsableSlot(b, 0);
    UsableSlot(b, 1);
    Threaded(b, head, links');
    list := SlotsFrom(b, 2);
    assert list[0] == SlotAddress(b, 2);
  }

  /** Nothing changed outside the region nor up to slot i. */
  ghost predicate Untouched(b: Word64, links: Links, links': Links, i: nat)
    requires IsBase(b) && i < SLOTS
  {
    forall a: Word64 | a <= SlotAddress(b, i) || !InRegion(b, a) :: Remain(links', a) == Remain(links, a)
  }

  lemma StillUntouched(b: Word64, links: Links, links': Links, i: nat, head: Word64)
    requires IsBase(b) && 0 < i < SLOTS && Untouched(b, links, links', i)
    ensures Untouched(b, links, links'[SlotAddress(b, i) := head], i - 1)
  {
    UsableSlot(b, i);
    var links'' := links'[SlotAddress(b, i) := head];
    forall a: Word64 | a <= SlotAddress(b, i - 1) || !InRegion(b, a) ensures Remain(links'', a) == Remain(links, a) {
      assert a != SlotAddress(b, i);
    }
  }

  lemma LinkSlot(b: Word64, head: Word64, links: Links, i: nat)
    requires IsBase(b) && i < SLOTS && Linked(head, links, SlotsFrom(b, i + 1))
    ensures Linked(SlotAddress(b, i), links[SlotAddress(b, i) := head], SlotsFrom(b, i))
    ensures InRegion(b, SlotAddress(b, i))
  {
    var rest, list := SlotsFrom(b, i + 1), SlotsFrom(b, i);
    var slot := SlotAddress(b, i);
    var links' := links[slot := head];
    forall k, l | 0 <= k < |list| && 0 <= l < |list| && l == k + 1 ensures Remain(links', list[k]) == list[l] {
      if k > 0 {
        assert list[k] == rest[k - 1] && list[l] == rest[l - 1];
      }
    }
  }

  lemma Threaded(b: Word64, head: Word64, links: Links)
    requires IsBase(b) && Linked(head, links, SlotsFrom(b, 2))
    requires Remain(links, SlotAddress(b, 0)) == NULL && Remain(links, SlotAddress(b, 1)) == NULL
    ensures RegionOk(b, head, links, SlotsFrom(b, 2), {})
  {
    var list := SlotsFrom(b, 2);
    forall i | 0 <= i < |list| ensures Usable(b, list[i]) {
      UsableSlot(b, i + 2);
    }
    forall a: Word64 | Usable(b, a) ensures a in list {
      var i := SlotNumber(b, a);
      assert list[i - 2] == a;
    }
  }

  // ---- The emptiness scan

  /** `detour_is_region_empty` on a region: yes exactly when none of its slots is in use. */
  method IsEmpty(b: Word64, links: Links, ghost head: Word64, ghost list: seq<Word64>, ghost inUse: set<Word64>)
      returns (empty: bool)
    requires RegionOk(b, head, links, list, inUse)
    ensures empty <==> forall a: Word64 | Usable(b, a) :: a !in inUse
  {
    var i := 0;
    while i < SLOTS
      invariant i <= SLOTS
      invariant forall k: nat | k < i :: Quiet(b, links, k)
    {
      var r := Remain(links, SlotAddress(b, i));
      if r != NULL && (r < b || r >= b + REGION_SIZE) {
        ScanFound(b, head, links, list, inUse, i);
        return false;
      }
      i := i + 1;
    }
    forall a: Word64 | Usable(b, a) ensures a !in inUse {
      var k := SlotNumber(b, a);
      assert Quiet(b, links, k);
    }
    return true;
  }

  /** The scan passes slot k by. */
  ghost predicate Quiet(b: Word64, links: Links, k: nat)
    requires IsBase(b)
  {
    k < SLOTS ==>
      var r := Remain(links, SlotAddress(b, k));
      r == NULL || InRegion(b, r)
  }

  lemma ScanFound(b: Word64, head: Word64, links: Links, list: seq<Word64>, inUse: set<Word64>, i: nat)
    requires RegionOk(b, head, links, list, inUse) && i < SLOTS && !Quiet(b, links, i)
    ensures exists a: Word64 :: Usable(b, a) && a in inUse
  {
    var a := SlotAddress(b, i);
    UsableSlot(b, i);
    if i >= 2 && a in list {
      var k :| 0 <= k < |list| && list[k] == a;
      assert k + 1 < |list| ==> Remain(links, list[k]) == list[k + 1] && Usable(b, list[k + 1]);
      if k + 1 < |list| {
        UsableInRegion(b, list[k + 1]);
      }
      assert false;
    }
  }
}
