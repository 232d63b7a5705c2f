/**
 The state of the slab allocator of kernel/src/mm/slab.c: caches with their three lists, slab
 headers, the memory words the free chains run through and the page-to-slab table.

 A slab is named by the address of its header and a cache by the address of its descriptor.
 Memory is a map from word addresses; what callers keep in their objects is in the same memory.
 */
module Slabs {
  import opened Common
  import opened SlabGeometry

  /** MEM_KFIXED_MAX */
  const FIXED_MAX := 0xF000_0000

  /** MEM_KFIXED_MAX_PAGE */
  const FIXED_PAGES := 0x3_0000

  /** MEM_SLAB_END */
  const SLAB_END := 0xFFFF_FFFF

  /** The name of the statically allocated cache of caches. */
  const ROOT: nat := 0

  datatype Cache = Cache(
    size: nat, large: bool, pages: nat, count: nat, full: seq<nat>, partial: seq<nat>, empty: seq<nat>)

  datatype Slab = Slab(cache: nat, active: nat, memory: nat, freePtr: nat)

  /**
   `header` names the cache of off-slab headers, `used` the pages in slabs. `chains` lists the free
   objects of each slab by index, in the order of its free chain.
   */
  datatype State = State(
    caches: map<nat, Cache>, slabs: map<nat, Slab>, mem: map<nat, nat>, pageSlab: map<nat, nat>, used: set<nat>,
    header: nat, chains: map<nat, seq<nat>>)

  function PageAddr(page: nat): nat {
    KERNEL_BASE + page * PAGE_SIZE
  }

  function PageOf(a: nat): nat
    requires a >= KERNEL_BASE
  {
    (a - KERNEL_BASE) / PAGE_SIZE
  }

  /** The distance from the first object to object `k`. */
  function Offset(size: nat, k: nat): nat {
    if k == 0 then 0 else Offset(size, k - 1) + size
  }

  function ObjectAddr(size: nat, memory: nat, k: nat): nat {
    PageAddr(memory) + Offset(size, k)
  }

  lemma {:induction false} OffsetIsProduct(size: nat, k: nat)
    ensures Offset(size, k) == k * size
  {
    if k > 0 {
      OffsetIsProduct(size, k - 1);
    }
  }

  lemma {:induction false} OffsetGap(size: nat, k: nat, l: nat)
    requires k < l
    ensures Offset(size, k) + size <= Offset(size, l)
  {
    if k + 1 < l {
      OffsetGap(size, k, l - 1);
    }
  }

  lemma {:induction false} OffsetAligned(size: nat, k: nat)
    requires size % 4 == 0
    ensures Offset(size, k) % 4 == 0
  {
    if k > 0 {
      OffsetAligned(size, k - 1);
    }
  }

  ghost predicate CacheOk(c: Cache) {
    && c.size >= 4 && c.size % 4 == 0 && 1 <= c.pages <= MAX_PAGES && c.count >= 1
    && Offset(c.size, c.count) + (if c.large then 0 else HEADER_SIZE) <= c.pages * PAGE_SIZE
  }

  /** The caches differ in their lists only. */
  predicate SameShape(c: Cache, d: Cache) {
    c.size == d.size && c.large == d.large && c.pages == d.pages && c.count == d.count
  }

  /** Following the chain from `ptr` through memory visits exactly the listed objects and ends in SLAB_END. */
  ghost predicate Linked(size: nat, memory: nat, ptr: nat, chain: seq<nat>, mem: map<nat, nat>)
    decreases |chain|
  {
    if chain == [] then ptr == SLAB_END
    else ptr == ObjectAddr(size, memory, chain[0]) && ptr in mem && Linked(size, memory, mem[ptr], chain[1..], mem)
  }

  ghost predicate SlabOk(c: Cache, sl: Slab, chain: seq<nat>, mem: map<nat, nat>) {
    && sl.memory + c.pages <= FIXED_PAGES
    && |chain| + sl.active == c.count
    && NoDuplicates(chain) && (forall i :: 0 <= i < |chain| ==> chain[i] < c.count)
    && Linked(c.size, sl.memory, sl.freePtr, chain, mem)
  }

  ghost predicate SlabInv(s: State, h: nat)
    requires h in s.slabs
  {
    var sl := s.slabs[h];
    && sl.cache in s.caches && h in s.chains
    && SlabOk(s.caches[sl.cache], sl, s.chains[h], s.mem)
    && (forall p: nat :: sl.memory <= p < sl.memory + s.caches[sl.cache].pages ==>
         p in s.used && p in s.pageSlab && s.pageSlab[p] == h)
  }

  /** `a` is the address of object `k` of slab `h`. */
  predicate IsObject(s: State, h: nat, k: nat, a: nat) {
    && h in s.slabs && s.slabs[h].cache in s.caches && h in s.chains
    && k < s.caches[s.slabs[h].cache].count
    && a == ObjectAddr(s.caches[s.slabs[h].cache].size, s.slabs[h].memory, k)
  }

  predicate LiveAt(s: State, h: nat, k: nat, a: nat) {
    IsObject(s, h, k, a) && k !in s.chains[h]
  }

  /** `a` is the address of an object that is handed out. */
  ghost predicate Live(s: State, a: nat) {
    exists h, k :: LiveAt(s, h, k, a)
  }

  /** `a` is a live object of the given cache. */
  ghost predicate LiveIn(s: State, id: nat, a: nat) {
    exists h, k :: LiveAt(s, h, k, a) && s.slabs[h].cache == id
  }

  /** Small slabs keep their header at the very end; those of large ones are objects of the header cache. */
  ghost predicate HeaderInv(s: State, h: nat)
    requires h in s.slabs && s.slabs[h].cache in s.caches
  {
    var sl := s.slabs[h];
    var c := s.caches[sl.cache];
    if c.large then LiveIn(s, s.header, h) else h + HEADER_SIZE == PageAddr(sl.memory + c.pages)
  }

  function Occurrences(c: Cache, h: nat): nat {
    multiset(c.full)[h] + multiset(c.partial)[h] + multiset(c.empty)[h]
  }

  /** A slab with `free` free objects and `active` ones in use is on a list that suits it. */
  predicate Placed(c: Cache, h: nat, free: nat, active: nat) {
    && (h in c.full ==> free == 0)
    && (h in c.partial ==> free > 0 && (c.count >= 2 ==> active > 0))
    && (h in c.empty ==> free > 0 && active == 0)
  }

  predicate Owns(s: State, id: nat, h: nat) {
    h in s.slabs && s.slabs[h].cache == id
  }

  ghost predicate ListInv(s: State, id: nat)
    requires id in s.caches && s.slabs.Keys <= s.chains.Keys
  {
    && (forall h :: Occurrences(s.caches[id], h) == if Owns(s, id, h) then 1 else 0)
    && (forall h :: Owns(s, id, h) ==> Placed(s.caches[id], h, |s.chains[h]|, s.slabs[h].active))
  }

  /** Every slab's free chain and pages are in order. */
  ghost predicate Chains(s: State) {
    && s.chains.Keys == s.slabs.Keys
    && (forall id :: id in s.caches ==> CacheOk(s.caches[id]))
    && (forall h :: h in s.slabs ==> SlabInv(s, h))
  }

  ghost predicate Headers(s: State) {
    forall h :: h in s.slabs ==> s.slabs[h].cache in s.caches && HeaderInv(s, h)
  }

  ghost predicate Lists(s: State) {
    s.slabs.Keys <= s.chains.Keys && forall id :: id in s.caches ==> ListInv(s, id)
  }

  ghost predicate Roots(s: State) {
    && ROOT in s.caches && s.header in s.caches && !s.caches[ROOT].large && !s.caches[s.header].large
    && s.slabs.Keys !! s.caches.Keys
    && (forall id :: id in s.caches ==> id == ROOT || LiveIn(s, ROOT, id))
  }

  ghost predicate Inv(s: State) {
    Chains(s) && Headers(s) && Lists(s) && Roots(s)
  }

  // ----- Addresses -----

  /** Every byte of an object lies in its slab's pages, clear of an in-slab header. */
  lemma ObjectInside(c: Cache, memory: nat, k: nat)
    requires CacheOk(c) && k < c.count
    ensures PageAddr(memory) <= ObjectAddr(c.size, memory, k)
    ensures ObjectAddr(c.size, memory, k) + c.size + (if c.large then 0 else HEADER_SIZE) <= PageAddr(memory + c.pages)
  {
    if k + 1 < c.count {
      OffsetGap(c.size, k, c.count);
    }
  }

  /** Objects start on word boundaries, so a free chain's links are whole words of memory. */
  lemma ObjectsAligned(c: Cache, memory: nat, k: nat)
    requires CacheOk(c)
    ensures ObjectAddr(c.size, memory, k) % 4 == 0
  {
    OffsetAligned(c.size, k);
  }

  lemma PageBounds(a: nat, memory: nat, pages: nat)
    requires PageAddr(memory) <= a < PageAddr(memory + pages)
    ensures memory <= PageOf(a) < memory + pages
  {
  }

  lemma ByteInPages(c: Cache, sl: Slab, k: nat, b: nat)
    requires CacheOk(c) && k < c.count && sl.memory + c.pages <= FIXED_PAGES
    requires ObjectAddr(c.size, sl.memory, k) <= b < ObjectAddr(c.size, sl.memory, k) + c.size
    ensures KERNEL_BASE <= b < FIXED_MAX && sl.memory <= PageOf(b) < sl.memory + c.pages
  {
    ObjectInside(c, sl.memory, k);
    PageBounds(b, sl.memory, c.pages);
  }

  /** The page table leads from any byte of an object to its slab. */
  lemma PageLeadsToSlab(s: State, h: nat, k: nat, a: nat, b: nat)
    requires Chains(s) && IsObject(s, h, k, a) && a <= b < a + s.caches[s.slabs[h].cache].size
    ensures KERNEL_BASE <= b < FIXED_MAX && PageOf(b) in s.pageSlab && s.pageSlab[PageOf(b)] == h
  {
    assert SlabInv(s, h);
    ByteInPages(s.caches[s.slabs[h].cache], s.slabs[h], k, b);
  }

  /** Objects do not overlap, whether in one slab or in two. */
  lemma ObjectsDisjoint(s: State, h: nat, k: nat, a: nat, g: nat, l: nat, b: nat)
    requires Chains(s) && IsObject(s, h, k, a) && IsObject(s, g, l, b)
    ensures (h == g && k == l)
      || a + s.caches[s.slabs[h].cache].size <= b || b + s.caches[s.slabs[g].cache].size <= a
  {
    if h == g {
      if k < l {
        OffsetGap(s.caches[s.slabs[h].cache].size, k, l);
      } else if l < k {
        OffsetGap(s.caches[s.slabs[h].cache].size, l, k);
      }
    } else if a <= b < a + s.caches[s.slabs[h].cache].size {
      PageLeadsToSlab(s, h, k, a, b);
      PageLeadsToSlab(s, g, l, b, b);
    } else if b <= a < b + s.caches[s.slabs[g].cache].size {
      PageLeadsToSlab(s, h, k, a, a);
      PageLeadsToSlab(s, g, l, b, a);
    }
  }

  /** An address names one object. */
  lemma ObjectUnique(s: State, h: nat, k: nat, g: nat, l: nat, a: nat)
    requires Chains(s) && IsObject(s, h, k, a) && IsObject(s, g, l, a)
    ensures h == g && k == l
  {
    ObjectsDisjoint(s, h, k, a, g, l, a);
  }

  lemma SmallHeaderClear(s: State, h: nat, g: nat, k: nat, a: nat)
    requires Chains(s) && h in s.slabs && s.slabs[h].cache in s.caches && IsObject(s, g, k, a)
    requires !s.caches[s.slabs[h].cache].large && HeaderInv(s, h)
    ensures a + s.caches[s.slabs[g].cache].size <= h || h + HEADER_SIZE <= a
  {
    var c, sl := s.caches[s.slabs[h].cache], s.slabs[h];
    var size := s.caches[s.slabs[g].cache].size;
    assert SlabInv(s, h);
    if g == h {
      ObjectInside(c, sl.memory, k);
    } else if a < h + HEADER_SIZE && h < a + size {
      var b := if a < h then h else a;
      PageLeadsToSlab(s, g, k, a, b);
      PageBounds(b, sl.memory, c.pages);
    }
  }

  /** No slab's header overlaps an object, unless it is the header of a large slab and that object itself. */
  lemma HeadersClear(s: State, h: nat, g: nat, k: nat, a: nat)
    requires Inv(s) && h in s.slabs && IsObject(s, g, k, a)
    ensures !s.caches[s.slabs[h].cache].large ==> a + s.caches[s.slabs[g].cache].size <= h || h + HEADER_SIZE <= a
    ensures s.caches[s.slabs[h].cache].large ==> Live(s, h) && (a < h ==> a + s.caches[s.slabs[g].cache].size <= h)
  {
    assert HeaderInv(s, h);
    if s.caches[s.slabs[h].cache].large {
      var f, l :| LiveAt(s, f, l, h) && s.slabs[f].cache == s.header;
      ObjectsDisjoint(s, f, l, h, g, k, a);
    } else {
      SmallHeaderClear(s, h, g, k, a);
    }
  }

  // ----- Lists -----

  /** ListDeleteInit on a list known to hold the slab at most once. */
  function Remove(list: seq<nat>, h: nat): seq<nat> {
    if list == [] then []
    else if list[0] == h then list[1..]
    else [list[0]] + Remove(list[1..], h)
  }

  function Detach(c: Cache, h: nat): Cache {
    c.(full := Remove(c.full, h), partial := Remove(c.partial, h), empty := Remove(c.empty, h))
  }

  function ToFull(c: Cache, h: nat): Cache {
    var d := Detach(c, h);
    d.(full := d.full + [h])
  }

  function ToPartial(c: Cache, h: nat): Cache {
    var d := Detach(c, h);
    d.(partial := d.partial + [h])
  }

  function ToEmpty(c: Cache, h: nat): Cache {
    var d := Detach(c, h);
    d.(empty := d.empty + [h])
  }

  /** The list moves of MemSlabAlloc, once the slab has `active` objects in use. */
  function AfterPop(c: Cache, h: nat, active: nat, ended: bool): Cache {
    if ended then ToFull(c, h) else if active == 1 then ToPartial(c, h) else c
  }

  /** The list moves of MemSlabFree, for a slab that still counts the freed object in `active`. */
  function AfterPush(c: Cache, h: nat, active: nat): Cache {
    if active == c.count then ToPartial(c, h) else if active == 1 then ToEmpty(c, h) else c
  }

  lemma InByCount(list: seq<nat>, h: nat)
    ensures h in list <==> multiset(list)[h] > 0
  {
  }

  lemma {:induction false} RemoveDiffers(list: seq<nat>, h: nat)
    ensures multiset(Remove(list, h)) == multiset(list) - multiset{h}
  {
    if list != [] {
      assert list == [list[0]] + list[1..];
      RemoveDiffers(list[1..], h);
    }
  }

  lemma RemoveCounts(list: seq<nat>, h: nat)
    ensures forall g :: g != h ==> multiset(Remove(list, h))[g] == multiset(list)[g]
    ensures forall g :: g != h ==> (g in Remove(list, h) <==> g in list)
    ensures multiset(list)[h] <= 1 ==> multiset(Remove(list, h))[h] == 0 && h !in Remove(list, h)
  {
    RemoveDiffers(list, h);
    forall g
      ensures g in Remove(list, h) <==> multiset(Remove(list, h))[g] > 0
      ensures g in list <==> multiset(list)[g] > 0
    {
      InByCount(Remove(list, h), g);
      InByCount(list, g);
    }
  }

  /** A slab on one list is on none once detached, and the others stay where they were. */
  lemma DetachesOneSlab(c: Cache, h: nat)
    requires Occurrences(c, h) == 1
    ensures forall g :: Occurrences(Detach(c, h), g) == if g == h then 0 else Occurrences(c, g)
    ensures h !in Detach(c, h).full && h !in Detach(c, h).partial && h !in Detach(c, h).empty
    ensures forall g :: g != h ==> (g in Detach(c, h).full <==> g in c.full)
    ensures forall g :: g != h ==> (g in Detach(c, h).partial <==> g in c.partial)
    ensures forall g :: g != h ==> (g in Detach(c, h).empty <==> g in c.empty)
  {
    RemoveCounts(c.full, h);
    RemoveCounts(c.partial, h);
    RemoveCounts(c.empty, h);
  }

  lemma AppendOccurrences(e: Cache, h: nat, d: Cache)
    requires d == e.(full := e.full + [h]) || d == e.(partial := e.partial + [h]) || d == e.(empty := e.empty + [h])
    ensures forall g :: Occurrences(d, g) == Occurrences(e, g) + if g == h then 1 else 0
  {
  }

  lemma MoveCounts(c: Cache, h: nat, d: Cache)
    requires Occurrences(c, h) == 1 && (d == ToFull(c, h) || d == ToPartial(c, h) || d == ToEmpty(c, h))
    ensures forall g :: Occurrences(d, g) == Occurrences(c, g)
  {
    DetachesOneSlab(c, h);
    AppendOccurrences(Detach(c, h), h, d);
  }

  /** Moving a slab between lists leaves all other slabs where they were. */
  lemma MovesOneSlab(c: Cache, h: nat, d: Cache)
    requires Occurrences(c, h) == 1 && (d == ToFull(c, h) || d == ToPartial(c, h) || d == ToEmpty(c, h))
    ensures SameShape(c, d)
    ensures forall g :: Occurrences(d, g) == Occurrences(c, g)
    ensures forall g, free, active :: g != h && Placed(c, g, free, active) ==> Placed(d, g, free, active)
  {
    MoveCounts(c, h, d);
    DetachesOneSlab(c, h);
    forall g, free, active | g != h && Placed(c, g, free, active)
      ensures Placed(d, g, free, active)
    {
      assert g in d.full <==> g in c.full;
      assert g in d.partial <==> g in c.partial;
      assert g in d.empty <==> g in c.empty;
    }
  }

  lemma PopPlaces(c: Cache, h: nat, free: nat, active: nat)
    requires Occurrences(c, h) == 1 && Placed(c, h, free, active) && free > 0 && free + active == c.count
    ensures Placed(AfterPop(c, h, active + 1, free == 1), h, free - 1, active + 1)
  {
    DetachesOneSlab(c, h);
    InByCount(c.full, h);
    InByCount(c.partial, h);
    InByCount(c.empty, h);
  }

  lemma PushPlaces(c: Cache, h: nat, free: nat, active: nat)
    requires Occurrences(c, h) == 1 && Placed(c, h, free, active) && active > 0 && free + active == c.count
    ensures Placed(AfterPush(c, h, active), h, free + 1, active - 1)
  {
    DetachesOneSlab(c, h);
    InByCount(c.full, h);
    InByCount(c.partial, h);
    InByCount(c.empty, h);
  }
}
