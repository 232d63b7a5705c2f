/**
 The sorted list of memory regions in a user address space: kernel/src/mm/region.c.

 Addresses and lengths are C `unsigned int` values, so every sum the code forms is `Add32`.
 */
module Regions {
  import opened Common

  datatype Flags = Flags(readable: bool, writable: bool, executable: bool, cacheDisable: bool) {
    predicate Accessible() {
      readable || writable || executable
    }
  }

  datatype Region = Region(start: nat, length: nat, flags: Flags) {
    function End(): nat {
      start + length
    }

    predicate Contains(address: nat) {
      start <= address < End()
    }
  }

  predicate ValidRange(start: nat, length: nat) {
    && start % PAGE_SIZE == 0
    && length % PAGE_SIZE == 0
    && 0 < start
    && start + length < KERNEL_BASE
  }

  /** The two regions are apart with at least one unused page between them, in either order. */
  predicate Separated(a: Region, b: Region) {
    a.End() < b.start || b.End() < a.start
  }

  /** Page aligned, below the kernel, in strictly ascending order and pairwise separated. */
  ghost predicate WellFormed(regions: seq<Region>) {
    && (forall i :: 0 <= i < |regions| ==> ValidRange(regions[i].start, regions[i].length))
    && (forall i, j :: 0 <= i < j < |regions| ==> regions[i].End() < regions[j].start)
  }

  /** MemRegionIsCollision, including its wrap-around test. */
  predicate Collides(prev: Region, next: Region) {
    !(next.start > Add32(prev.start, prev.length) && Add32(prev.start, prev.length) >= prev.start)
  }

  /** MemRegionFind: the walk stops at the first region that starts beyond the address. */
  method Find(regions: seq<Region>, address: nat) returns (found: Option<nat>)
    requires WellFormed(regions)
    ensures found.Some? <==> exists i :: 0 <= i < |regions| && regions[i].Contains(address)
    ensures found.Some? ==> found.value < |regions| && regions[found.value].Contains(address)
    ensures found.Some? ==> forall i :: 0 <= i < |regions| && i != found.value ==> !regions[i].Contains(address)
    ensures Home(regions, address) == if found.Some? then Some(regions[found.value]) else None
  {
    var i := 0;
    while i < |regions|
      invariant 0 <= i <= |regions|
      invariant forall j :: 0 <= j < i ==> !regions[j].Contains(address)
    {
      if regions[i].start > address {
        break;
      }
      if address < Add32(regions[i].start, regions[i].length) {
        HomeIs(regions, address, i);
        return Some(i);
      }
      i := i + 1;
    }
    return None;
  }

  function Inserted(regions: seq<Region>, at: nat, region: Region): seq<Region>
    requires at <= |regions|
  {
    regions[..at] + [region] + regions[at..]
  }

  /** The region an address is in, if there is one. */
  ghost function Home(regions: seq<Region>, address: nat): Option<Region> {
    if i :| 0 <= i < |regions| && regions[i].Contains(address) then Some(regions[i]) else None
  }

  lemma HomeIs(regions: seq<Region>, address: nat, i: nat)
    requires WellFormed(regions) && i < |regions| && regions[i].Contains(address)
    ensures Home(regions, address) == Some(regions[i])
  {
    forall j | 0 <= j < |regions| && j != i
      ensures !regions[j].Contains(address)
    {
      assert j < i ==> regions[j].End() < regions[i].start;
      assert i < j ==> regions[i].End() < regions[j].start;
    }
  }

  /** The list gains exactly the new region, in its place, and no old one changes. */
  lemma InsertedList(regions: seq<Region>, at: nat, start: nat, length: nat, flags: Flags)
    requires at <= |regions|
    ensures
      var after := Inserted(regions, at, Region(start, length, flags));
      && |after| == |regions| + 1 && after[at].start == start && after[at].length == length && after[at].flags == flags
      && after[..at] == regions[..at] && after[at + 1..] == regions[at..]
  {
  }

  /** Addresses of the new region are found in it, all others where they were. */
  lemma InsertedHome(regions: seq<Region>, at: nat, start: nat, length: nat, flags: Flags, address: nat)
    requires WellFormed(regions) && at <= |regions| && WellFormed(Inserted(regions, at, Region(start, length, flags)))
    ensures Home(Inserted(regions, at, Region(start, length, flags)), address) ==
      if start <= address < start + length then Some(Region(start, length, flags)) else Home(regions, address)
  {
    var after := Inserted(regions, at, Region(start, length, flags));
    InsertedList(regions, at, start, length, flags);
    assert after[at] == Region(start, length, flags);
    if start <= address < start + length {
      HomeIs(after, address, at);
    } else if i :| 0 <= i < |regions| && regions[i].Contains(address) {
      HomeIs(regions, address, i);
      InsertedKeeps(regions, at, Region(start, length, flags), i);
      HomeIs(after, address, if i < at then i else i + 1);
    } else {
      forall k | 0 <= k < |after| && k != at
        ensures !after[k].Contains(address)
      {
        InsertedKeeps(regions, at, Region(start, length, flags), if k < at then k else k - 1);
      }
    }
  }

  lemma InsertedKeeps(regions: seq<Region>, at: nat, region: Region, i: nat)
    requires at <= |regions| && i < |regions|
    ensures |Inserted(regions, at, region)| == |regions| + 1
    ensures Inserted(regions, at, region)[if i < at then i else i + 1] == regions[i]
  {
  }

  /**
   Exactly when MemRegionCreate accepts. When every existing region starts at or below the new one,
   the code compares against the list head as though it were a region; `tailStart` is the word of
   memory it then reads as that region's start.
   */
  ghost predicate Acceptable(regions: seq<Region>, region: Region, tailStart: nat) {
    && ValidRange(region.start, region.length)
    && (forall i :: 0 <= i < |regions| ==> Separated(region, regions[i]))
    && (regions == [] || tailStart > region.End() || exists i :: 0 <= i < |regions| && regions[i].start > region.start)
  }

  /** Between valid ranges the wrap-around test is idle. */
  lemma CollidesIsOverlap(prev: Region, next: Region)
    requires ValidRange(prev.start, prev.length)
    ensures Collides(prev, next) <==> next.start <= prev.End()
  {
  }

  /** The place found by the walk: every earlier region starts at or below, every later one above. */
  ghost predicate Splits(regions: seq<Region>, at: nat, start: nat) {
    && at <= |regions|
    && (forall j :: 0 <= j < at ==> regions[j].start <= start)
    && (forall j :: at <= j < |regions| ==> regions[j].start > start)
  }

  /** Clearing the two neighbours clears the whole list, because it is sorted. */
  lemma NeighboursDecide(regions: seq<Region>, at: nat, region: Region)
    requires WellFormed(regions) && Splits(regions, at, region.start)
    requires ValidRange(region.start, region.length)
    ensures (forall i :: 0 <= i < |regions| ==> Separated(region, regions[i])) <==>
            && (at > 0 ==> regions[at - 1].End() < region.start)
            && (at < |regions| ==> region.End() < regions[at].start)
  {
    if && (at > 0 ==> regions[at - 1].End() < region.start)
       && (at < |regions| ==> region.End() < regions[at].start) {
      forall i | 0 <= i < |regions|
        ensures Separated(region, regions[i])
      {
        if i < at - 1 {
          assert regions[i].End() < regions[at - 1].start;
        } else if at < i {
          assert regions[at].End() < regions[i].start;
        }
      }
    } else if at > 0 && regions[at - 1].End() >= region.start {
      assert !Separated(region, regions[at - 1]);
    } else {
      assert !Separated(region, regions[at]);
    }
  }

  lemma InsertKeepsWellFormed(regions: seq<Region>, at: nat, region: Region)
    requires WellFormed(regions) && Splits(regions, at, region.start)
    requires ValidRange(region.start, region.length)
    requires at > 0 ==> regions[at - 1].End() < region.start
    requires at < |regions| ==> region.End() < regions[at].start
    ensures WellFormed(Inserted(regions, at, region))
  {
    var after := Inserted(regions, at, region);
    forall j, k | 0 <= j < k < |after|
      ensures after[j].End() < after[k].start
    {
      if j == at && k > at + 1 {
        assert regions[at].End() < regions[k - 1].start;
      } else if k == at && j < at - 1 {
        assert regions[j].End() < regions[at - 1].start;
      }
    }
  }

  /** MemRegionCreate: where the new region goes, or None when it is refused. */
  method Create(regions: seq<Region>, start: nat, length: nat, flags: Flags, tailStart: nat)
      returns (place: Option<nat>)
    requires WellFormed(regions)
    requires start < WORD && length < WORD && tailStart < WORD
    ensures place.Some? <==> Acceptable(regions, Region(start, length, flags), tailStart)
    ensures place.Some? ==> Splits(regions, place.value, start)
    ensures place.Some? ==> WellFormed(Inserted(regions, place.value, Region(start, length, flags)))
  {
    var region := Region(start, length, flags);
    if start % PAGE_SIZE != 0 || length % PAGE_SIZE != 0 || Add32(start, length) < start {
      return None;
    }
    if start == 0 || Add32(start, length) >= KERNEL_BASE {
      return None;
    }
    if regions == [] {
      return Some(0);
    }
    var i := 0;
    while i < |regions| && regions[i].start <= start
      invariant 0 <= i <= |regions|
      invariant forall j :: 0 <= j < i ==> regions[j].start <= start
    {
      i := i + 1;
    }
    NeighboursDecide(regions, i, region);
    if i > 0 {
      CollidesIsOverlap(regions[i - 1], region);
      if Collides(regions[i - 1], region) {
        return None;
      }
    }
    var next := if i < |regions| then regions[i] else Region(tailStart, 0, flags);
    CollidesIsOverlap(region, next);
    if Collides(region, next) {
      return None;
    }
    InsertKeepsWellFormed(regions, i, region);
    return Some(i);
  }

  /** MemRegionResize's new list; an unacceptable length leaves the list as it was. */
  function Resized(regions: seq<Region>, i: nat, newLength: nat): seq<Region>
    requires i < |regions|
  {
    var region := regions[i];
    var stays :=
      || newLength % PAGE_SIZE != 0
      || (newLength >= region.length &&
          (|| Add32(region.start, newLength) < region.start
           || Add32(region.start, newLength) > KERNEL_BASE
           || (i + 1 < |regions| && Collides(region, regions[i + 1]))));
    if stays then regions else regions[i := region.(length := newLength)]
  }

  /** Shrinking always keeps the list well formed. */
  lemma ShrinkKeepsWellFormed(regions: seq<Region>, i: nat, newLength: nat)
    requires WellFormed(regions) && i < |regions| && newLength < regions[i].length
    ensures WellFormed(Resized(regions, i, newLength))
  {
    var after := Resized(regions, i, newLength);
    forall j, k | 0 <= j < k < |after|
      ensures after[j].End() < after[k].start
    {
      assert regions[j].End() < regions[k].start;
    }
  }

  /** The new length is refused by the tests that are right, or the new end leaves room. */
  predicate LeavesRoom(regions: seq<Region>, i: nat, newLength: nat)
    requires i < |regions|
  {
    || newLength % PAGE_SIZE != 0
    || regions[i].start + newLength > KERNEL_BASE
    || (&& regions[i].start + newLength < KERNEL_BASE
        && (i + 1 < |regions| ==> regions[i].start + newLength < regions[i + 1].start))
  }

  /** Growing tests the old length against the next region: the list stays well formed exactly if the new one fits. */
  lemma GrowthKeepsWellFormedIff(regions: seq<Region>, i: nat, newLength: nat)
    requires WellFormed(regions) && i < |regions| && regions[i].length <= newLength < WORD
    ensures WellFormed(Resized(regions, i, newLength)) <==> LeavesRoom(regions, i, newLength)
  {
    var region := regions[i];
    var after := Resized(regions, i, newLength);
    assert i + 1 < |regions| ==> !Collides(region, regions[i + 1]);
    if newLength % PAGE_SIZE != 0 || region.start + newLength > KERNEL_BASE {
      assert after == regions;
    } else {
      assert after[i] == region.(length := newLength);
      if i + 1 < |regions| && region.start + newLength >= regions[i + 1].start {
        assert after[i].End() >= after[i + 1].start;
      } else if region.start + newLength < KERNEL_BASE {
        forall j, k | 0 <= j < k < |after|
          ensures after[j].End() < after[k].start
        {
          assert regions[j].End() < regions[k].start;
          if j == i && k > i + 1 {
            assert regions[i + 1].End() < regions[k].start;
          }
        }
      }
    }
  }

  /** The tests on the wrapped end are the test on the end itself. */
  lemma GrowthEnd(start: nat, newLength: nat)
    requires start < WORD && newLength < WORD
    ensures Add32(start, newLength) < start || Add32(start, newLength) > KERNEL_BASE <==>
            start + newLength > KERNEL_BASE
  {
  }

  /** Growth to an aligned length that ends at or below the kernel sets the length, and any other is refused. */
  lemma GrowthSetsLength(regions: seq<Region>, i: nat, newLength: nat)
    requires WellFormed(regions) && i < |regions| && regions[i].length <= newLength < WORD
    ensures newLength % PAGE_SIZE == 0 && regions[i].start + newLength <= KERNEL_BASE ==>
      Resized(regions, i, newLength) == regions[i := Region(regions[i].start, newLength, regions[i].flags)]
    ensures newLength % PAGE_SIZE != 0 || regions[i].start + newLength > KERNEL_BASE ==>
      Resized(regions, i, newLength) == regions
  {
    assert i + 1 < |regions| ==> !Collides(regions[i], regions[i + 1]);
    GrowthEnd(regions[i].start, newLength);
  }

  /** Two regions with a free page between them; the lower one grows over the upper one. */
  lemma GrowthCanOverlap() returns (regions: seq<Region>)
    ensures WellFormed(regions) && |regions| == 2
    ensures !WellFormed(Resized(regions, 0, 0x3000))
  {
    var f := Flags(true, true, false, false);
    regions := [Region(0x1000, 0x1000, f), Region(0x3000, 0x1000, f)];
    var after := Resized(regions, 0, 0x3000);
    assert after[0].End() == 0x4000 && after[1].start == 0x3000;
  }

  /** Removing a region keeps the list well formed. */
  lemma RemoveKeepsWellFormed(regions: seq<Region>, i: nat)
    requires WellFormed(regions) && i < |regions|
    ensures WellFormed(regions[..i] + regions[i + 1..])
  {
  }
}
