/**
  The trampoline pool (external/detours/src/detours.cpp, `detour_alloc_trampoline`, `detour_free_trampoline`,
  `detour_is_region_empty`): a linked list of regions, each with an intrusive free list. The jump bounds and the address
  of a newly reserved region are parameters.
 */
module TrampolinePool {
  import opened TrampolineRegion
  import opened Words

  function RegionOf(a: Word64): Word64 {
    a - a % REGION_SIZE
  }

  /** All regions are well formed. */
  ghost predicate RegionsOk(
      regions: seq<Word64>, free: map<Word64, Word64>, links: Links, lists: map<Word64, seq<Word64>>,
      inUse: set<Word64>) {
    forall b | b in regions :: b in free && b in lists && RegionOk(b, free[b], links, lists[b], inUse)
  }

  /** Links and slots in use lie in regions. */
  ghost predicate Confined(regions: seq<Word64>, links: Links, inUse: set<Word64>) {
    && (forall a | a in links :: RegionOf(a) in regions)
    && (forall a | a in inUse :: RegionOf(a) in regions && Usable(RegionOf(a), a))
  }

  ghost predicate RegionList(first: Word64, next: map<Word64, Word64>, regions: seq<Word64>) {
    && (forall i, j | 0 <= i < j < |regions| :: regions[i] != regions[j])
    && first == (if regions == [] then NULL else regions[0])
    && (forall i | 0 <= i < |regions| :: regions[i] in next && regions[i] != NULL)
    && (forall i, j | 0 <= i < |regions| && 0 <= j < |regions| && j == i + 1 :: next[regions[i]] == regions[j])
    && (regions != [] ==> next[regions[|regions| - 1]] == NULL)
  }

  lemma Disjoint(b: Word64, b': Word64, a: Word64)
    requires IsBase(b) && IsBase(b') && InRegion(b, a) && InRegion(b', a)
    ensures b == b' == RegionOf(a)
  {
    InRegionBase(b, a);
    InRegionBase(b', a);
  }

  /** One region changes; its neighbours do not notice. */
  lemma ChangeRegion(
      regions: seq<Word64>, free: map<Word64, Word64>, links: Links, lists: map<Word64, seq<Word64>>,
      inUse: set<Word64>, b: Word64, t: Word64, head': Word64, link': Word64, list': seq<Word64>, inUse': set<Word64>)
    requires RegionsOk(regions, free, links, lists, inUse) && b in regions && Usable(b, t)
    requires RegionOk(b, head', links[t := link'], list', inUse')
    requires inUse' == inUse + {t} || inUse' == inUse - {t} || inUse' == inUse
    ensures RegionsOk(regions, free[b := head'], links[t := link'], lists[b := list'], inUse')
  {
    UsableInRegion(b, t);
    var links' := links[t := link'];
    forall c | c in regions && c != b ensures RegionOk(c, free[c], links', lists[c], inUse') {
      forall a: Word64 | InRegion(c, a)
        ensures Remain(links', a) == Remain(links, a) && (a in inUse' <==> a in inUse) {
        if a == t {
          Disjoint(b, c, a);
        }
      }
      OtherRegion(c, free[c], links, links', lists[c], inUse, inUse');
    }
  }

  /** A new region is added; the others do not notice. */
  lemma AddRegion(
      regions: seq<Word64>, free: map<Word64, Word64>, links: Links, links': Links, lists: map<Word64, seq<Word64>>,
      inUse: set<Word64>, b: Word64, head: Word64, list: seq<Word64>)
    requires RegionsOk(regions, free, links, lists, inUse) && Confined(regions, links, inUse)
    requires IsBase(b) && b !in regions && RegionOk(b, head, links', list, {})
    requires forall a: Word64 | !InRegion(b, a) :: Remain(links', a) == Remain(links, a)
    ensures RegionsOk([b] + regions, free[b := head], links', lists[b := list], inUse)
  {
    forall c | c in regions ensures RegionOk(c, free[c], links', lists[c], inUse) {
      assert IsBase(c);
      forall a: Word64 | InRegion(c, a) ensures Remain(links', a) == Remain(links, a) {
        if InRegion(b, a) {
          Disjoint(b, c, a);
        }
      }
      OtherRegion(c, free[c], links, links', lists[c], inUse, inUse);
    }
    forall a: Word64 | InRegion(b, a) ensures a !in inUse {
      if a in inUse {
        BaseOf(b, a);
      }
    }
    OtherRegion(b, head, links', links', list, {}, inUse);
  }

  lemma BaseOf(b: Word64, a: Word64)
    requires IsBase(b) && InRegion(b, a)
    ensures RegionOf(a) == b
  {
    InRegionBase(b, a);
  }

  lemma FreshIsZero(regions: seq<Word64>, links: Links, inUse: set<Word64>, b: Word64)
    requires Confined(regions, links, inUse) && IsBase(b) && b !in regions
    ensures forall a: Word64 | InRegion(b, a) :: Remain(links, a) == NULL
  {
    forall a: Word64 | InRegion(b, a) ensures a !in links {
      BaseOf(b, a);
    }
  }

  lemma ExtendConfined(regions: seq<Word64>, links: Links, links': Links, inUse: set<Word64>, os: Word64)
    requires Confined(regions, links, inUse) && IsBase(os)
    requires forall a | a in links' :: a in links || InRegion(os, a)
    ensures Confined([os] + regions, links', inUse)
  {
    forall a | a in links' ensures RegionOf(a) in [os] + regions {
      if a !in links {
        BaseOf(os, a);
      }
    }
  }

  lemma KeepConfined(regions: seq<Word64>, links: Links, inUse: set<Word64>, t: Word64, link: Word64)
    requires Confined(regions, links, inUse) && RegionOf(t) in regions && Usable(RegionOf(t), t)
    ensures Confined(regions, links[t := link], inUse + {t})
    ensures Confined(regions, links[t := link], inUse - {t})
    ensures Confined(regions, links[t := link], inUse)
  {
  }

  lemma ExtendList(first: Word64, next: map<Word64, Word64>, regions: seq<Word64>, os: Word64)
    requires RegionList(first, next, regions) && os !in regions && os != NULL
    ensures RegionList(os, next[os := first], [os] + regions)
  {
    var next', regions' := next[os := first], [os] + regions;
    forall i, j | 0 <= i < |regions'| && 0 <= j < |regions'| && j == i + 1 ensures next'[regions'[i]] == regions'[j] {
      if i > 0 {
        assert regions'[i] == regions[i - 1] && regions'[j] == regions[j - 1];
      }
    }
  }

  ghost predicate PoolOk(
      regions: seq<Word64>, free: map<Word64, Word64>, links: Links, lists: map<Word64, seq<Word64>>,
      inUse: set<Word64>) {
    RegionsOk(regions, free, links, lists, inUse) && Confined(regions, links, inUse)
  }

  lemma ReturnToPool(
      regions: seq<Word64>, free: map<Word64, Word64>, links: Links, lists: map<Word64, seq<Word64>>,
      inUse: set<Word64>, b: Word64, t: Word64)
    requires PoolOk(regions, free, links, lists, inUse) && t in inUse && b == RegionOf(t)
    ensures b in regions && b in free && b in lists
    ensures PoolOk(regions, free[b := t], links[t := free[b]], lists[b := [t] + lists[b]], inUse - {t})
  {
    ReturnSlot(b, free[b], links, lists[b], inUse, t);
    ChangeRegion(regions, free, links, lists, inUse, b, t, t, free[b], [t] + lists[b], inUse - {t});
    KeepConfined(regions, links, inUse, t, free[b]);
  }

  lemma TakeFromPool(
      regions: seq<Word64>, free: map<Word64, Word64>, links: Links, lists: map<Word64, seq<Word64>>,
      inUse: set<Word64>, b: Word64)
    requires PoolOk(regions, free, links, lists, inUse) && b in regions && free[b] != NULL
    ensures Usable(b, free[b]) && free[b] !in inUse && lists[b] != []
    ensures PoolOk(
              regions, free[b := Remain(links, free[b])], links[free[b] := FILLED], lists[b := lists[b][1..]],
              inUse + {free[b]})
  {
    var t, list := free[b], lists[b];
    TakeSlot(b, t, links, list, inUse);
    ChangeRegion(regions, free, links, lists, inUse, b, t, Remain(links, t), FILLED, list[1..], inUse + {t});
    UsableInRegion(b, t);
    KeepConfined(regions, links, inUse, t, FILLED);
  }

  lemma PointInPool(
      regions: seq<Word64>, free: map<Word64, Word64>, links: Links, lists: map<Word64, seq<Word64>>,
      inUse: set<Word64>, b: Word64, t: Word64, remain: Word64)
    requires PoolOk(regions, free, links, lists, inUse) && t in inUse && b == RegionOf(t)
    requires remain != NULL && !InRegion(b, remain)
    ensures PoolOk(regions, free, links[t := remain], lists, inUse)
  {
    PointOut(b, free[b], links, lists[b], inUse, t, remain);
    ChangeRegion(regions, free, links, lists, inUse, b, t, free[b], remain, lists[b], inUse);
    KeepConfined(regions, links, inUse, t, remain);
    assert free[b := free[b]] == free && lists[b := lists[b]] == lists;
  }

  lemma AddToPool(
      regions: seq<Word64>, free: map<Word64, Word64>, links: Links, links': Links, lists: map<Word64, seq<Word64>>,
      inUse: set<Word64>, os: Word64, head: Word64, list: seq<Word64>)
    requires PoolOk(regions, free, links, lists, inUse)
    requires IsBase(os) && os !in regions && RegionOk(os, head, links', list, {})
    requires forall a: Word64 | !InRegion(os, a) :: Remain(links', a) == Remain(links, a)
    requires forall a | a in links' :: a in links || InRegion(os, a)
    ensures PoolOk([os] + regions, free[os := head], links', lists[os := list], inUse)
  {
    AddRegion(regions, free, links, links', lists, inUse, os, head, list);
    ExtendConfined(regions, links, links', inUse, os);
  }

  /** Exactly the regions carry the signature. */
  ghost predicate CarrySignature(signatures: set<Word64>, regions: seq<Word64>) {
    forall b :: b in signatures <==> b in regions
  }

  lemma ExtendSigned(signatures: set<Word64>, regions: seq<Word64>, os: Word64)
    requires CarrySignature(signatures, regions)
    ensures CarrySignature(signatures + {os}, [os] + regions)
  {
  }

  class TrampolinePool {
    var first: Word64
    var current: Word64
    var next: map<Word64, Word64>
    var free: map<Word64, Word64>
    var links: Links
    // The addresses that hold DETOUR_REGION_SIGNATURE.
    var signatures: set<Word64>
    ghost var regions: seq<Word64>
    ghost var lists: map<Word64, seq<Word64>>
    ghost var inUse: set<Word64>

    ghost predicate Valid()
      reads this
    {
      && RegionList(first, next, regions)
      && PoolOk(regions, free, links, lists, inUse)
      && (current == NULL || current in regions)
      && CarrySignature(signatures, regions)
    }

    constructor ()
      ensures Valid() && regions == [] && inUse == {}
    {
      first, current, next, free, links, signatures := NULL, NULL, map[], map[], map[], {};
      regions, lists, inUse := [], map[], {};
    }

    /** The region's next free slot can be reached. */
    predicate Offers(b: Word64, lo: Word64, hi: Word64)
      reads this
    {
      b in free && free[b] != NULL && lo <= free[b] <= hi
    }

    ghost predicate NoneOffers(lo: Word64, hi: Word64)
      reads this
    {
      forall b | b in regions :: !Offers(b, lo, hi)
    }

    /** Looks for a region that offers a slot: the default one first, then all in list order. */
    method FindRegion(lo: Word64, hi: Word64)
      requires RegionList(first, next, regions) && (current == NULL || current in regions)
      modifies this`current
      ensures if NoneOffers(lo, hi) then current == NULL else current in regions && Offers(current, lo, hi)
    {
      if current == NULL && first != NULL {
        current := first;
      }
      if current != NULL && Offers(current, lo, hi) {
        return;
      }
      current := first;
      ghost var i := 0;
      while current != NULL
        invariant i <= |regions| && current == (if i < |regions| then regions[i] else NULL)
        invariant forall j | 0 <= j < i :: !Offers(regions[j], lo, hi)
        decreases |regions| - i
      {
        if Offers(current, lo, hi) {
          return;
        }
        current := next[current];
        i := i + 1;
      }
    }

    /** Takes the first free slot of the default region, whose bounds were checked. */
    method TakeFirst() returns (t: Word64)
      requires Valid() && current in regions && free[current] != NULL
      modifies this`free, this`links, this`lists, this`inUse
      ensures Valid() && t == old(free[current]) && t !in old(inUse) && inUse == old(inUse) + {t}
      ensures Usable(current, t)
    {
      ghost var list := lists[current];
      t := free[current];
      TakeFromPool(regions, free, links, lists, inUse, current);
      Update(current, t, Remain(links, t), FILLED, list[1..], inUse + {t});
    }

    /** Rewrites a region's list head and a slot's link. */
    method Update(b: Word64, t: Word64, head: Word64, link: Word64, ghost list: seq<Word64>, ghost used: set<Word64>)
      requires RegionList(first, next, regions) && (current == NULL || current in regions)
      requires CarrySignature(signatures, regions)
      requires PoolOk(regions, free[b := head], links[t := link], lists[b := list], used)
      modifies this`free, this`links, this`lists, this`inUse
      ensures Valid() && inUse == used && lists == old(lists)[b := list]
    {
      free := free[b := head];
      links := links[t := link];
      lists := lists[b := list];
      inUse := used;
    }

    /** Makes newly reserved memory the default region, with all slots but the first two free. */
    method NewRegion(os: Word64)
      requires Valid() && IsBase(os) && os !in regions
      modifies this
      ensures Valid() && regions == [os] + old(regions) && current == os && inUse == old(inUse)
      ensures free[os] == SlotAddress(os, 2)
    {
      FreshIsZero(regions, links, inUse, os);
      var head, links', list := Thread(os, links);
      AddToPool(regions, free, links, links', lists, inUse, os, head, list);
      ExtendList(first, next, regions, os);
      ExtendSigned(signatures, regions, os);
      Install(os, head, links', list);
    }

    /** Puts a threaded region in front of the list. */
    method Install(os: Word64, head: Word64, links': Links, ghost list: seq<Word64>)
      requires RegionList(os, next[os := first], [os] + regions) && CarrySignature(signatures + {os}, [os] + regions)
      requires PoolOk([os] + regions, free[os := head], links', lists[os := list], inUse)
      modifies this
      ensures Valid() && regions == [os] + old(regions) && current == os && inUse == old(inUse)
      ensures free == old(free)[os := head]
    {
      current := os;
      signatures := signatures + {os};
      free := free[os := head];
      next := next[os := first];
      first := os;
      links := links';
      lists := lists[os := list];
      regions := [os] + regions;
    }

    /**
      Returns a slot that was not in use and lies within the jump bounds; fails exactly when no region offers one and
      no new region is to be had whose first free slot is within the bounds. `os` is what reserving memory returned.
     */
    method Alloc(lo: Word64, hi: Word64, os: Word64) returns (t: Word64)
      requires Valid() && (os != NULL ==> IsBase(os) && os !in regions)
      modifies this
      ensures Valid()
      ensures t == NULL <==> old(NoneOffers(lo, hi)) && (os == NULL || !(lo <= SlotAddress(os, 2) <= hi))
      ensures t != NULL ==>
                && lo <= t <= hi && t !in old(inUse) && inUse == old(inUse) + {t}
                && RegionOf(t) in regions && Usable(RegionOf(t), t)
      ensures t == NULL ==> inUse == old(inUse)
      ensures regions == old(regions) || (os != NULL && regions == [os] + old(regions))
    {
      FindRegion(lo, hi);
      if current == NULL {
        if os == NULL {
          return NULL;
        }
        NewRegion(os);
      }
      if free[current] < lo || free[current] > hi {
        return NULL;
      }
      t := TakeFirst();
      UsableInRegion(current, t);
    }

    /** Puts a slot in use back at the front of its region's free list. */
    method Free(t: Word64)
      requires Valid() && t in inUse
      modifies this`free, this`links, this`lists, this`inUse
      ensures Valid() && inUse == old(inUse) - {t}
      ensures lists == old(lists)[RegionOf(t) := [t] + old(lists)[RegionOf(t)]]
    {
      var b := RegionOf(t);
      ReturnToPool(regions, free, links, lists, inUse, b, t);
      Update(b, t, t, free[b], [t] + lists[b], inUse - {t});
    }

    /** The user of a slot records where the detoured code goes on, which is outside the region. */
    method SetRemain(t: Word64, remain: Word64)
      requires Valid() && t in inUse && remain != NULL && !InRegion(RegionOf(t), remain)
      modifies this`links
      ensures Valid() && links == old(links)[t := remain]
    {
      var b := RegionOf(t);
      PointInPool(regions, free, links, lists, inUse, b, t, remain);
      links := links[t := remain];
    }

    /** No for what is not a region; for a region, yes exactly when none of its slots is in use. */
    method RegionEmpty(b: Word64) returns (empty: bool)
      requires Valid()
      ensures empty <==> b in regions && forall a | a in inUse :: RegionOf(a) != b
    {
      if b !in signatures {
        return false;
      }
      empty := IsEmpty(b, links, free[b], lists[b], inUse);
      forall a: Word64 | Usable(b, a) ensures RegionOf(a) == b {
        UsableInRegion(b, a);
      }
    }
  }

  lemma PointOut(
      b: Word64, head: Word64, links: Links, list: seq<Word64>, inUse: set<Word64>, t: Word64, remain: Word64)
    requires RegionOk(b, head, links, list, inUse) && Usable(b, t) && t in inUse
    requires remain != NULL && !InRegion(b, remain)
    ensures RegionOk(b, head, links[t := remain], list, inUse)
  {
    var links' := links[t := remain];
    assert t !in list;
    forall i, j | 0 <= i < |list| && 0 <= j < |list| && j == i + 1 ensures Remain(links', list[i]) == list[j] {
      assert list[i] != t;
    }
    UsableSlot(b, 0);
    UsableSlot(b, 1);
  }
}
