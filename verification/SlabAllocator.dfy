/** The slab allocator as kernel/src/mm/slab.c codes it, proved against the steps of SlabSafety. */
module SlabAllocator {
  import opened Common
  import opened SlabGeometry
  import opened Slabs
  import opened SlabRuns
  import opened SlabSafety

  /** How a call that may run out of pages ends: the kernel panics, NULL, or an address. */
  datatype Outcome = Panic | Null | Got(ptr: nat)

  lemma {:induction false} ChainFromLinks(size: nat, raw: nat, count: nat, j: nat, mem: map<nat, nat>)
    requires j < count
    requires forall l: nat :: l < count - 1 ==>
      ObjectAddr(size, raw, l) in mem && mem[ObjectAddr(size, raw, l)] == ObjectAddr(size, raw, l + 1)
    requires ObjectAddr(size, raw, count - 1) in mem && mem[ObjectAddr(size, raw, count - 1)] == SLAB_END
    ensures Linked(size, raw, ObjectAddr(size, raw, j), Indices(count)[j..], mem)
    decreases count - j
  {
    var chain := Indices(count)[j..];
    assert chain[0] == j && chain[1..] == Indices(count)[j + 1..];
    if j + 1 < count {
      ChainFromLinks(size, raw, count, j + 1, mem);
    }
  }

  /** The slab cache of cache descriptors, statically set up. */
  function RootCache(): Cache {
    Cache(CACHE_SIZE, false, 1, (PAGE_SIZE - HEADER_SIZE) / CACHE_SIZE, [], [], [])
  }

  /** A pointer that lies in object `k` of slab `h`, as the page table says. */
  ghost predicate Found(s: State, h: nat, k: nat, ptr: nat) {
    && LiveAt(s, h, k, ptr) && s.slabs[h].active > 0
    && KERNEL_BASE <= ptr < FIXED_MAX && PageOf(ptr) in s.pageSlab && s.pageSlab[PageOf(ptr)] == h
  }

  /** Every live object is found through the page it starts in. */
  lemma LiveIsFound(s: State, h: nat, k: nat, ptr: nat)
    requires Chains(s) && LiveAt(s, h, k, ptr)
    ensures Found(s, h, k, ptr)
  {
    assert CacheOk(s.caches[s.slabs[h].cache]);
    PageLeadsToSlab(s, h, k, ptr, ptr);
    LiveIsCounted(s, h, k, ptr);
  }

  lemma ShapeOk(size: nat, pages: nat)
    requires 0 < size < MAX_PAGES * PAGE_SIZE && size % 4 == 0 && BestPages(size, pages)
    ensures 1 <= pages && CacheOk(Cache(size, size >= LARGE_FROM, pages, Objects(size, pages), [], [], []))
  {
    GeometryFits(size, pages);
    OffsetIsProduct(size, Objects(size, pages));
  }

  class Allocator {
    var caches: map<nat, Cache>
    var slabs: map<nat, Slab>
    var mem: map<nat, nat>
    var pageSlab: map<nat, nat>
    var rootSlabCache: nat
    var kAllocCache: seq<nat>

    /** The pages the physical allocator counts as taken. */
    var taken: set<nat>

    ghost var used: set<nat>
    ghost var chains: map<nat, seq<nat>>

    ghost function View(): State
      reads this
    {
      State(caches, slabs, mem, pageSlab, used, rootSlabCache, chains)
    }

    ghost predicate Valid()
      reads this
    {
      Inv(View()) && used <= taken
    }

    constructor ()
      ensures Valid() && caches == map[ROOT := RootCache()] && slabs == map[] && rootSlabCache == ROOT
    {
      caches := map[ROOT := RootCache()];
      slabs, mem, pageSlab, rootSlabCache, kAllocCache := map[], map[], map[], ROOT, [];
      taken, used, chains := {}, {}, map[];
      new;
      OffsetIsProduct(CACHE_SIZE, (PAGE_SIZE - HEADER_SIZE) / CACHE_SIZE);
    }

    /** MemPhysicalAlloc: some run of pages nobody has, or a panic. */
    method AllocPages(n: nat) returns (page: Option<nat>)
      modifies this`taken
      ensures page.None? ==> taken == old(taken)
      ensures page.Some? ==>
        && page.value + n <= FIXED_PAGES && Pages(page.value, n) !! old(taken)
        && taken == old(taken) + Pages(page.value, n)
    {
      var p: int := *;
      if 0 <= p && p + n <= FIXED_PAGES && Pages(p, n) !! taken {
        taken := taken + Pages(p, n);
        return Some(p);
      }
      return None;
    }

    /** The loop of CreateSlab that threads the free chain through new pages. */
    method WriteChain(c: Cache, raw: nat)
      requires CacheOk(c)
      modifies this`mem
      ensures Linked(c.size, raw, PageAddr(raw), Indices(c.count), mem)
      ensures SameOutside(old(mem), mem, raw, c.pages)
    {
      var dataPtr := PageAddr(raw);
      var i := 1;
      while i < c.count
        invariant 1 <= i <= c.count && dataPtr == ObjectAddr(c.size, raw, i - 1)
        invariant forall l: nat :: l < i - 1 ==>
          ObjectAddr(c.size, raw, l) in mem && mem[ObjectAddr(c.size, raw, l)] == ObjectAddr(c.size, raw, l + 1)
        invariant SameOutside(old(mem), mem, raw, c.pages)
      {
        var newDataPtr := dataPtr + c.size;
        WriteInside(c, raw, i - 1);
        mem := mem[dataPtr := newDataPtr];
        dataPtr := newDataPtr;
        i := i + 1;
      }
      WriteInside(c, raw, c.count - 1);
      mem := mem[dataPtr := SLAB_END];
      ChainFromLinks(c.size, raw, c.count, 0, mem);
      assert Indices(c.count)[0..] == Indices(c.count);
    }

    /** The tail of MemSlabAlloc: unlinks the first free object of the slab and moves the slab between lists. */
    method TakeFrom(h: nat) returns (a: nat)
      requires Poppable(View(), h)
      modifies this
      ensures a == old(slabs[h].freePtr) && View() == Pop(old(View()), h)
      ensures taken == old(taken) && kAllocCache == old(kAllocCache)
    {
      var sl := slabs[h];
      a := sl.freePtr;
      slabs := slabs[h := sl.(active := sl.active + 1, freePtr := mem[a])];
      chains := chains[h := chains[h][1..]];
      caches := caches[sl.cache := AfterPop(caches[sl.cache], h, sl.active + 1, mem[a] == SLAB_END)];
    }

    /** The rest of CreateSlab: the pages are threaded, entered in the page table and listed as an empty slab. */
    method Install(id: nat, slab: nat, page: nat)
      requires id in caches && CacheOk(caches[id])
      modifies this
      ensures View() == Grow(old(View()), id, page, slab, mem)
      ensures Linked(old(caches[id]).size, page, PageAddr(page), Indices(old(caches[id]).count), mem)
      ensures SameOutside(old(mem), mem, page, old(caches[id]).pages)
      ensures taken == old(taken) && kAllocCache == old(kAllocCache)
    {
      var c := caches[id];
      pageSlab := pageSlab + map p | p in Pages(page, c.pages) :: slab;
      WriteChain(c, page);
      slabs := slabs[slab := Slab(id, 0, page, PageAddr(page))];
      caches := caches[id := c.(empty := c.empty + [slab])];
      chains := chains[slab := Indices(c.count)];
      used := used + Pages(page, c.pages);
    }

    /** The header of a new slab: an object of the header cache if it is large, else the end of its pages. */
    method HeaderFor(id: nat, page: nat) returns (h: Option<nat>)
      requires Valid() && id in caches && Pages(page, caches[id].pages) <= taken
      requires page + caches[id].pages <= FIXED_PAGES && Pages(page, caches[id].pages) !! used
      modifies this
      ensures h.Some? ==> Valid() && HasHeader(View(), id, page, h.value) && SameShape(old(caches[id]), caches[id])
      ensures h.Some? ==>
        if old(caches[id].large) then SmallAlloc(old(View()), old(rootSlabCache), h.value, View())
        else View() == old(View())
      ensures h.Some? ==> old(taken) <= taken && used - old(used) !! old(taken)
      ensures kAllocCache == old(kAllocCache)
      decreases if caches[id].large then 3 else 0
    {
      if caches[id].large {
        h := SlabAlloc(rootSlabCache);
        if h.Some? {
          HeaderIsReady(old(View()), id, page, h.value, View());
        }
      } else {
        var end := PageAddr(page + caches[id].pages) - HEADER_SIZE;
        FreshTailIsNoHeader(View(), page, caches[id].pages, end);
        h := Some(end);
      }
    }

    /**
     CreateSlab, or None on a panic. `u` is the state once the header is there: for a large slab it
     has been allocated from the header cache, whose own slabs are not large.
     */
    method CreateSlab(id: nat) returns (h: Option<nat>, ghost u: State, ghost raw: nat)
      requires Valid() && id in caches
      modifies this
      ensures h.Some? ==> Inv(u) && CanGrow(u, id, raw, h.value, mem) && View() == Grow(u, id, raw, h.value, mem)
      ensures h.Some? ==>
        if old(caches[id].large) then SmallAlloc(old(View()), old(rootSlabCache), h.value, u) else u == old(View())
      ensures h.Some? ==> used <= taken && old(taken) <= taken && used - old(used) !! old(taken)
      ensures kAllocCache == old(kAllocCache)
      decreases if caches[id].large then 4 else 1
    {
      var page := AllocPages(caches[id].pages);
      u, raw := View(), 0;
      if page.None? {
        return None, u, raw;
      }
      raw := page.value;
      h := HeaderFor(id, page.value);
      if h.None? {
        return None, u, raw;
      }
      u := View();
      Install(id, h.value, page.value);
      assert CanGrow(u, id, raw, h.value, mem);
    }

    /** MemSlabAlloc, or None on a panic. The measure shows that a header allocation never needs another. */
    method SlabAlloc(id: nat) returns (a: Option<nat>)
      requires Valid() && id in caches
      modifies this
      ensures a.None? ==> !HasRoom(old(caches[id]))
      ensures old(caches[id]).partial != [] ==>
        old(caches[id]).partial[0] in old(slabs) && a == Some(old(slabs)[old(caches[id]).partial[0]].freePtr)
      ensures old(caches[id]).partial == [] && old(caches[id]).empty != [] ==>
        old(caches[id]).empty[0] in old(slabs) && a == Some(old(slabs)[old(caches[id]).empty[0]].freePtr)
      ensures a.Some? ==> Valid() && AllocStep(old(View()), id, a.value, View())
      ensures a.Some? ==> old(taken) <= taken && used - old(used) !! old(taken)
      ensures kAllocCache == old(kAllocCache)
      decreases if caches[id].large then 5 else 2
    {
      var h: nat;
      if HasRoom(caches[id]) {
        RoomIsPoppable(View(), id);
        h := if caches[id].partial != [] then caches[id].partial[0] else caches[id].empty[0];
      } else {
        var made: Option<nat>;
        ghost var u, raw;
        made, u, raw := CreateSlab(id);
        if made.None? {
          return None;
        }
        h := made.value;
        GrowAllocates(old(View()), u, id, raw, h, mem);
      }
      var ptr := TakeFrom(h);
      AllocIsSafe(old(View()), id, ptr, View());
      return Some(ptr);
    }

    /** MemSlabFree: pointers outside the kernel's fixed mapping and objects of another cache are refused. */
    method SlabFree(cache: nat, ptr: nat, ghost h: nat, ghost k: nat)
      requires KERNEL_BASE <= ptr < FIXED_MAX ==> Found(View(), h, k, ptr)
      modifies this`caches, this`slabs, this`mem, this`chains
      ensures !(KERNEL_BASE <= ptr < FIXED_MAX) || old(slabs[h].cache) != cache ==> View() == old(View())
      ensures KERNEL_BASE <= ptr < FIXED_MAX && old(slabs[h].cache) == cache ==> View() == Push(old(View()), h, k)
    {
      if ptr < KERNEL_BASE || ptr >= FIXED_MAX {
        return;
      }
      var slab := pageSlab[PageOf(ptr)];
      var sl := slabs[slab];
      if sl.cache != cache {
        return;
      }
      GiveTo(slab, ptr, k);
    }

    /** The tail of MemSlabFree: links the object in front of the chain and moves the slab between lists. */
    method GiveTo(h: nat, ptr: nat, ghost k: nat)
      requires h in slabs && h in chains && slabs[h].active > 0 && slabs[h].cache in caches
      requires ptr == ObjectAddr(caches[slabs[h].cache].size, slabs[h].memory, k)
      modifies this`caches, this`slabs, this`mem, this`chains
      ensures View() == Push(old(View()), h, k)
    {
      var sl := slabs[h];
      var c := AfterPush(caches[sl.cache], h, sl.active);
      mem := mem[ptr := sl.freePtr];
      slabs := slabs[h := sl.(active := sl.active - 1, freePtr := ptr)];
      caches := caches[sl.cache := c];
      chains := chains[h := [k] + chains[h]];
    }

    /** MemKFree finds the cache through the page, so any live object goes back to the slab it came from. */
    method KFree(ptr: nat, ghost h: nat, ghost k: nat)
      requires Valid() && KERNEL_BASE <= ptr < FIXED_MAX
      requires PageOf(ptr) in pageSlab ==> LiveAt(View(), h, k, ptr) && ptr !in slabs && ptr !in caches
      modifies this`caches, this`slabs, this`mem, this`chains
      ensures Valid()
      ensures PageOf(ptr) !in old(pageSlab) ==> View() == old(View())
      ensures PageOf(ptr) in old(pageSlab) ==> Step(old(View()), Give(h, k, ptr), View())
    {
      if PageOf(ptr) !in pageSlab {
        return;
      }
      LiveIsFound(View(), h, k, ptr);
      ghost var before := View();
      var slab := slabs[pageSlab[PageOf(ptr)]];
      SlabFree(slab.cache, ptr, h, k);
      StepKeepsInv(before, Give(h, k, ptr), View());
    }

    /** MemSlabCreate: NULL for sizes of 32 KB and more, else a new cache with the best geometry for its size. */
    method Create(size: nat) returns (r: Outcome)
      requires Valid() && 0 < size <= WORD - 4
      modifies this
      ensures r.Null? <==> AlignWord(size) >= MAX_PAGES * PAGE_SIZE
      ensures r.Null? ==> View() == old(View())
      ensures r.Panic? ==> !HasRoom(old(caches[ROOT]))
      ensures r.Got? ==> Valid() && Created(old(View()), r.ptr, View())
      ensures r.Got? ==> NewShape(caches[r.ptr], AlignWord(size)) && AddStep(old(View()), r.ptr, caches[r.ptr], View())
      ensures r.Got? ==> kAllocCache == old(kAllocCache)
    {
      if AlignWord(size) >= MAX_PAGES * PAGE_SIZE {
        return Null;
      }
      var c := ShapeFor(AlignWord(size));
      var a := AddNew(c);
      if a.None? {
        return Panic;
      }
      AddIsSafe(old(View()), a.value, c, View());
      return Got(a.value);
    }

    /** Allocates a descriptor and sets it up as the given cache. */
    method AddNew(c: Cache) returns (a: Option<nat>)
      requires Valid()
      modifies this
      ensures a.None? ==> !HasRoom(old(caches[ROOT]))
      ensures a.Some? ==> AddStep(old(View()), a.value, c, View()) && used <= taken
      ensures kAllocCache == old(kAllocCache)
    {
      a := SlabAlloc(ROOT);
      if a.Some? {
        AddedThen(old(View()), a.value, c, View());
        SetCache(a.value, c);
      }
    }

    method SetCache(a: nat, c: Cache)
      modifies this`caches
      ensures View() == AddCache(old(View()), a, c) && taken == old(taken)
    {
      caches := caches[a := c];
    }

    /** MemSlabShrink gives a slab's pages back. The list it is on stays as it is. */
    method DropAt(id: nat, i: nat)
      requires id in caches && i < |caches[id].empty| && used <= taken
      requires Owns(View(), id, caches[id].empty[i])
      requires Pages(slabs[caches[id].empty[i]].memory, caches[id].pages) <= used
      modifies this`taken, this`used, this`slabs, this`chains
      ensures used <= taken && Behind(View(), id, i + 1) == Drop(Behind(old(View()), id, i), id)
      ensures taken - used == old(taken) - old(used) && taken <= old(taken)
    {
      var h := caches[id].empty[i];
      ghost var s := Behind(View(), id, i);
      taken := taken - Pages(slabs[h].memory, caches[id].pages);
      used := used - Pages(slabs[h].memory, caches[id].pages);
      slabs, chains := slabs - {h}, chains - {h};
      BehindDrop(s, id, View(), i);
    }

    /** A turn of MemSlabShrink's loop. */
    method ReleaseAt(id: nat, i: nat, ghost g: nat, ghost k: nat)
      requires id in caches && id != rootSlabCache && i < |caches[id].empty| && used <= taken
      requires Releasable(Behind(View(), id, i), id, g, k)
      requires Pages(slabs[caches[id].empty[i]].memory, caches[id].pages) <= used
      modifies this`taken, this`used, this`caches, this`slabs, this`mem, this`chains
      ensures id in caches && caches[id] == old(caches[id]) && used <= taken
      ensures ReleaseStep(Behind(old(View()), id, i), id, g, k, Behind(View(), id, i + 1))
      ensures taken - used == old(taken) - old(used) && taken <= old(taken)
    {
      var h := caches[id].empty[i];
      DropAt(id, i);
      if caches[id].large {
        ghost var u := View();
        BehindFound(u, id, i + 1, g, k, h);
        SlabFree(rootSlabCache, h, g, k);
        BehindPush(u, id, i + 1, g, k);
      }
    }

    method ReleaseNext(id: nat, i: nat, ghost s: State, ghost b: State) returns (ghost next: State)
      requires used <= taken && Shrunk(s, View(), b, id, i) && i < |s.caches[id].empty| && id != s.header
      modifies this`taken, this`used, this`caches, this`slabs, this`mem, this`chains
      ensures used <= taken && Shrunk(s, View(), next, id, i + 1)
      ensures taken - used == old(taken) - old(used) && taken <= old(taken)
    {
      ghost var v := View();
      ghost var g, k := ReleaseReady(b, id);
      PagesUsed(b, id, b.caches[id].empty[0]);
      ReleaseAt(id, i, g, k);
      next := Behind(View(), id, i + 1);
      ShrunkNext(s, v, b, id, i, g, k, View());
    }

    /**
     MemSlabShrink. Afterwards the invariant holds of the state read with the list of empty slabs
     emptied; ShrunkInvIff says when it holds of the state as it is.
     */
    method Shrink(id: nat) returns (ghost b: State)
      requires Valid() && id in caches && id != rootSlabCache
      modifies this`taken, this`used, this`caches, this`slabs, this`mem, this`chains
      ensures used <= taken && Shrunk(old(View()), View(), b, id, |old(caches[id]).empty|)
      ensures taken - used == old(taken) - old(used) && taken <= old(taken)
    {
      ShrunkStart(View(), id);
      b := ReleaseAll(id, View());
    }

    /** The loop of MemSlabShrink. */
    method ReleaseAll(id: nat, ghost s: State) returns (ghost b: State)
      requires used <= taken && Shrunk(s, View(), s, id, 0) && id != s.header
      modifies this`taken, this`used, this`caches, this`slabs, this`mem, this`chains
      ensures used <= taken && Shrunk(s, View(), b, id, |s.caches[id].empty|)
      ensures taken - used == old(taken) - old(used) && taken <= old(taken)
    {
      b := s;
      var n, i := |caches[id].empty|, 0;
      while i < n
        invariant 0 <= i <= n && used <= taken
        invariant taken - used == old(taken) - old(used) && taken <= old(taken)
        invariant Shrunk(s, View(), b, id, i)
      {
        b := ReleaseNext(id, i, s, b);
        i := i + 1;
      }
    }

    /** MemSlabDestroy: refused while a slab is on the full or the partial list, else the cache and its slabs go. */
    method Destroy(id: nat) returns (ok: bool)
      requires Valid() && id in caches && id != ROOT && id != rootSlabCache
      modifies this`taken, this`used, this`caches, this`slabs, this`mem, this`chains
      ensures ok <==> old(caches[id]).full == [] && old(caches[id]).partial == []
      ensures Valid()
      ensures !ok ==> View() == old(View())
      ensures ok ==> Destroyed(old(View()), View(), id)
      ensures taken - used == old(taken) - old(used) && taken <= old(taken)
    {
      if caches[id].full != [] || caches[id].partial != [] {
        return false;
      }
      DestroyUnused(id);
      return true;
    }

    method DestroyUnused(id: nat)
      requires Valid() && id in caches && id != ROOT && id != rootSlabCache
      requires caches[id].full == [] && caches[id].partial == []
      modifies this`taken, this`used, this`caches, this`slabs, this`mem, this`chains
      ensures Valid() && Destroyed(old(View()), View(), id)
      ensures taken - used == old(taken) - old(used) && taken <= old(taken)
    {
      ghost var s := View();
      ghost var b := Shrink(id);
      ghost var g, k := DescriptorReady(s, View(), b, id);
      FreeDescriptor(id, g, k);
    }

    /** The end of MemSlabDestroy: the descriptor goes back to the cache of caches. */
    method FreeDescriptor(id: nat, ghost g: nat, ghost k: nat)
      requires id in caches && Found(RemoveCache(View(), id), g, k, id) && slabs[g].cache == ROOT
      modifies this`caches, this`slabs, this`mem, this`chains
      ensures View() == Push(RemoveCache(old(View()), id), g, k)
      ensures used == old(used) && taken == old(taken)
    {
      caches := caches - {id};
      SlabFree(ROOT, id, g, k);
    }

    /** MemKAlloc's caches are there, one for each class. */
    ghost predicate Ready()
      reads this
    {
      |kAllocCache| == CLASSES && ClassesUpTo(View(), kAllocCache)
    }

    /** MemSlabInit, or false on a panic. */
    method Init() returns (ok: bool)
      requires Valid() && caches.Keys == {ROOT} && rootSlabCache == ROOT
      modifies this
      ensures ok ==> Valid() && Ready() && rootSlabCache in caches && caches[rootSlabCache].size == HEADER_SIZE
    {
      var r := Create(HEADER_SIZE);
      if !r.Got? {
        return false;
      }
      OnlySmallCaches(old(View()), r.ptr, View());
      SetHeaderKeepsInv(View(), r.ptr);
      NameHeaderCache(r.ptr);
      ok := InitClasses();
    }

    method NameHeaderCache(id: nat)
      modifies this`rootSlabCache
      ensures View() == old(View()).(header := id) && taken == old(taken)
    {
      rootSlabCache := id;
    }

    /** The loop of MemSlabInit. */
    method InitClasses() returns (ok: bool)
      requires Valid() && rootSlabCache in caches && caches[rootSlabCache].size == HEADER_SIZE
      modifies this
      ensures ok ==> Valid() && Ready() && rootSlabCache in caches && caches[rootSlabCache].size == HEADER_SIZE
    {
      kAllocCache := [];
      for i := 0 to CLASSES
        invariant Valid() && |kAllocCache| == i && ClassesUpTo(View(), kAllocCache)
        invariant rootSlabCache in caches && caches[rootSlabCache].size == HEADER_SIZE
      {
        ok := InitClass(i);
        if !ok {
          return false;
        }
      }
      return true;
    }

    /** One turn of it. */
    method InitClass(i: nat) returns (ok: bool)
      requires Valid() && i < CLASSES && |kAllocCache| == i && ClassesUpTo(View(), kAllocCache)
      requires rootSlabCache in caches && caches[rootSlabCache].size == HEADER_SIZE
      modifies this
      ensures ok ==> Valid() && |kAllocCache| == i + 1 && ClassesUpTo(View(), kAllocCache)
      ensures ok ==> rootSlabCache in caches && caches[rootSlabCache].size == HEADER_SIZE
    {
      ClassAligned(i);
      ghost var before := View();
      var next := Create(ClassSize(i));
      if !next.Got? {
        return false;
      }
      ClassAdded(before, kAllocCache, next.ptr, View());
      AppendClass(next.ptr);
      return true;
    }

    method AppendClass(id: nat)
      modifies this`kAllocCache
      ensures View() == old(View()) && taken == old(taken) && kAllocCache == old(kAllocCache) + [id]
    {
      kAllocCache := kAllocCache + [id];
    }

    /** MemKAlloc: an object of the smallest class that fits. */
    method KAlloc(bytes: nat) returns (r: Outcome)
      requires Valid() && Ready()
      modifies this
      ensures r.Null? <==> bytes == 0 || bytes > ClassSize(CLASSES - 1)
      ensures r.Null? ==> View() == old(View())
      ensures r.Panic? ==> !HasRoom(old(caches[kAllocCache[CacheIndex(bytes)]]))
      ensures r.Got? ==> Valid() && Ready() && kAllocCache == old(kAllocCache)
      ensures r.Got? ==>
        var i := CacheIndex(bytes);
        && AllocStep(old(View()), kAllocCache[i], r.ptr, View())
        && caches[kAllocCache[i]].size == ClassSize(i)
    {
      if bytes == 0 || bytes > ClassSize(CLASSES - 1) {
        return Null;
      }
      ghost var before := View();
      var a := SlabAlloc(kAllocCache[CacheIndex(bytes)]);
      if a.None? {
        return Panic;
      }
      ClassesKept(before, kAllocCache, kAllocCache[CacheIndex(bytes)], a.value, View());
      return Got(a.value);
    }
  }

  /** The first empty slab can be released; `g` and `k` locate its header if that is an object. */
  ghost predicate Releasable(s: State, id: nat, g: nat, k: nat) {
    && id in s.caches && s.caches[id].empty != [] && Owns(s, id, s.caches[id].empty[0])
    && (s.caches[id].large ==>
         Found(Drop(s, id), g, k, s.caches[id].empty[0]) && Drop(s, id).slabs[g].cache == s.header)
  }

  /** Where the header of a large cache's first empty slab is kept. */
  lemma HeaderObject(s: State, id: nat) returns (g: nat, k: nat)
    requires Inv(s) && id in s.caches && s.caches[id].large && s.caches[id].empty != []
    ensures Owns(s, id, s.caches[id].empty[0])
    ensures LiveAt(Drop(s, id), g, k, s.caches[id].empty[0]) && Drop(s, id).slabs[g].cache == s.header
    ensures Found(Drop(s, id), g, k, s.caches[id].empty[0])
  {
    DropKeepsInv(s, id);
    var h := s.caches[id].empty[0];
    assert HeaderInv(s, h);
    g, k :| LiveAt(s, g, k, h) && s.slabs[g].cache == s.header;
    assert LiveAt(Drop(s, id), g, k, h);
    LiveIsFound(Drop(s, id), g, k, h);
  }

  /** The pages of a slab are taken. */
  lemma PagesUsed(s: State, id: nat, h: nat)
    requires Chains(s) && id in s.caches && Owns(s, id, h)
    ensures Pages(s.slabs[h].memory, s.caches[id].pages) <= s.used
  {
    forall p | p in Pages(s.slabs[h].memory, s.caches[id].pages)
      ensures p in s.used
    {
      SlabPagesUsed(s, h, p);
    }
  }

  lemma ReleaseReady(s: State, id: nat) returns (g: nat, k: nat)
    requires Inv(s) && id in s.caches && s.caches[id].empty != []
    ensures Releasable(s, id, g, k)
  {
    EmptySlab(s, id);
    g, k := 0, 0;
    if s.caches[id].large {
      g, k := HeaderObject(s, id);
    }
  }

  /** `v` is `s` with the first `i` empty slabs of the cache released and still linked; `b` is `v` without them. */
  ghost predicate Shrunk(s: State, v: State, b: State, id: nat, i: nat) {
    && id in s.caches && id in v.caches && v.caches[id] == s.caches[id] && i <= |s.caches[id].empty|
    && v.header == s.header && b == Behind(v, id, i)
    && Inv(b) && Spared(s, b)
    && (i > 0 ==> s.caches[id].empty[0] !in v.slabs)
  }

  lemma SparedSelf(s: State)
    ensures Spared(s, s)
  {
  }

  lemma ShrunkStart(s: State, id: nat)
    requires Inv(s) && id in s.caches
    ensures Shrunk(s, s, s, id, 0)
  {
    SparedSelf(s);
    BehindNone(s, id);
  }

  lemma BehindNone(s: State, id: nat)
    requires id in s.caches
    ensures Behind(s, id, 0) == s
  {
    assert s.caches[id].empty[0..] == s.caches[id].empty;
    assert s.caches[id := s.caches[id]] == s.caches;
  }

  lemma ShrunkNext(s: State, v: State, b: State, id: nat, i: nat, g: nat, k: nat, w: State)
    requires Shrunk(s, v, b, id, i) && i < |s.caches[id].empty| && id != s.header
    requires id in w.caches && w.caches[id] == v.caches[id]
    requires ReleaseStep(b, id, g, k, Behind(w, id, i + 1))
    ensures Shrunk(s, w, Behind(w, id, i + 1), id, i + 1)
  {
    ReleaseIsSafe(b, id, g, k, Behind(w, id, i + 1));
    ReleaseShape(b, id, g, k, Behind(w, id, i + 1));
    SparedTransitive(s, b, Behind(w, id, i + 1));
  }

  /** MemSlabShrink by itself leaves a good state only if there was nothing to free: freed slabs stay linked. */
  lemma ShrunkInvIff(s: State, v: State, b: State, id: nat)
    requires id in s.caches && Shrunk(s, v, b, id, |s.caches[id].empty|)
    ensures Inv(v) <==> s.caches[id].empty == []
  {
    var c := v.caches[id];
    if c.empty == [] {
      BehindNone(v, id);
    } else {
      InByCount(c.empty, c.empty[0]);
      assert Occurrences(c, c.empty[0]) > 0 && !Owns(v, id, c.empty[0]);
      assert !ListInv(v, id) || !Lists(v);
    }
  }

  /** The cache and its slabs are gone, and the callers' objects are as they were. */
  ghost predicate Destroyed(s: State, t: State, id: nat) {
    && id !in t.caches
    && (forall h :: h in t.slabs ==> h in s.slabs && t.slabs[h].cache != id)
    && (forall h, k, a {:trigger Untouched(s, t, h, k, a)} ::
         LiveAt(s, h, k, a) && a !in s.slabs && a != id ==> Untouched(s, t, h, k, a))
  }

  lemma BehindAll(v: State, id: nat)
    requires id in v.caches && v.caches[id].full == [] && v.caches[id].partial == []
    ensures NoSlabs(Behind(v, id, |v.caches[id].empty|).caches[id])
    ensures RemoveCache(Behind(v, id, |v.caches[id].empty|), id) == RemoveCache(v, id)
  {
  }

  /** With all its slabs released, giving up a cache's descriptor ends it safely. */
  lemma DescriptorReady(s: State, v: State, b: State, id: nat) returns (g: nat, k: nat)
    requires id in s.caches && Shrunk(s, v, b, id, |s.caches[id].empty|) && id != ROOT && id != s.header
    requires s.caches[id].full == [] && s.caches[id].partial == []
    ensures Found(RemoveCache(v, id), g, k, id) && v.slabs[g].cache == ROOT
    ensures Inv(Push(RemoveCache(v, id), g, k)) && Destroyed(s, Push(RemoveCache(v, id), g, k), id)
  {
    BehindAll(v, id);
    g, k := DescriptorObject(b, id, RemoveCache(v, id));
    DestroyIsSafe(s, b, RemoveCache(v, id), id, g, k);
  }

  /** Where the descriptor of a cache without slabs is kept. */
  lemma DescriptorObject(b: State, id: nat, v: State) returns (g: nat, k: nat)
    requires Inv(b) && id in b.caches && id != ROOT && id != b.header && NoSlabs(b.caches[id])
    requires v == RemoveCache(b, id)
    ensures Found(v, g, k, id) && v.slabs[g].cache == ROOT
  {
    RemoveCacheKeepsInv(b, id);
    g, k :| LiveAt(b, g, k, id) && b.slabs[g].cache == ROOT;
    assert LiveAt(v, g, k, id);
    LiveIsFound(v, g, k, id);
  }

  lemma DestroyIsSafe(s: State, b: State, v: State, id: nat, g: nat, k: nat)
    requires Inv(b) && Spared(s, b) && id in b.caches && id != ROOT && id != b.header && NoSlabs(b.caches[id])
    requires v == RemoveCache(b, id) && Found(v, g, k, id) && v.slabs[g].cache == ROOT
    ensures Inv(Push(v, g, k)) && Destroyed(s, Push(v, g, k), id)
  {
    RemoveCacheKeepsInv(b, id);
    NoSlabsLeft(b, id);
    assert id !in v.slabs;
    PushKeepsInv(v, g, k, id);
    PushSpares(v, g, k, id);
    forall h, l, a | LiveAt(s, h, l, a) && a !in s.slabs && a != id
      ensures Untouched(s, Push(v, g, k), h, l, a)
    {
      assert Untouched(s, b, h, l, a);
      EndCacheUntouched(b, id, h, l, a);
      UntouchedThrice(s, b, v, Push(v, g, k), h, l, a);
    }
  }

  lemma UntouchedThrice(s: State, b: State, v: State, t: State, h: nat, k: nat, a: nat)
    requires Untouched(s, b, h, k, a) && Untouched(b, v, h, k, a) && Untouched(v, t, h, k, a)
    ensures Untouched(s, t, h, k, a)
  {
  }

  /** Removing a slab while leaving the list alone is dropping it, with the list read from further on. */
  lemma BehindDrop(s: State, id: nat, u: State, i: nat)
    requires id in u.caches && i < |u.caches[id].empty| && u.caches[id].empty[i] !in u.slabs
    requires id in s.caches && s.caches == u.caches[id := u.caches[id].(empty := u.caches[id].empty[i..])]
    requires s.caches[id].empty[0] in s.slabs
    requires u.slabs == s.slabs - {s.caches[id].empty[0]} && u.chains == s.chains - {s.caches[id].empty[0]}
    requires u.used == s.used - Pages(s.slabs[s.caches[id].empty[0]].memory, s.caches[id].pages)
    requires u.mem == s.mem && u.pageSlab == s.pageSlab && u.header == s.header
    ensures Behind(u, id, i + 1) == Drop(s, id)
  {
    assert u.caches[id].empty[i..][1..] == u.caches[id].empty[i + 1..];
  }

  lemma BehindFound(u: State, id: nat, i: nat, g: nat, k: nat, a: nat)
    requires id in u.caches && i <= |u.caches[id].empty| && Found(Behind(u, id, i), g, k, a)
    ensures Found(u, g, k, a)
  {
  }

  lemma BehindPush(u: State, id: nat, i: nat, g: nat, k: nat)
    requires id in u.caches && i <= |u.caches[id].empty| && g in u.slabs && g in u.chains && u.slabs[g].active > 0
    requires u.slabs[g].cache in u.caches && u.slabs[g].cache != id
    ensures Push(u, g, k).caches[id] == u.caches[id]
    ensures Behind(Push(u, g, k), id, i) == Push(Behind(u, id, i), g, k)
  {
  }

  /** The caches listed are there and of the class sizes in turn. */
  ghost predicate ClassesUpTo(s: State, ids: seq<nat>) {
    forall i :: 0 <= i < |ids| ==> ids[i] in s.caches && s.caches[ids[i]].size == ClassSize(i)
  }

  lemma ClassesKept(s: State, ids: seq<nat>, id: nat, a: nat, t: State)
    requires Inv(s) && ClassesUpTo(s, ids) && AllocStep(s, id, a, t)
    ensures ClassesUpTo(t, ids)
  {
    AllocIsSafe(s, id, a, t);
  }

  lemma ClassAdded(s: State, ids: seq<nat>, id: nat, t: State)
    requires ClassesUpTo(s, ids) && Created(s, id, t) && t.caches[id].size == ClassSize(|ids|)
    ensures ClassesUpTo(t, ids + [id])
    ensures s.header in s.caches ==> t.header in t.caches && t.caches[t.header].size == s.caches[s.header].size
  {
  }

  lemma ClassAligned(i: nat)
    requires i < CLASSES
    ensures 0 < ClassSize(i) <= 8192 && AlignWord(ClassSize(i)) == ClassSize(i)
  {
    Pow2Values();
    Pow2Monotone(i, 10);
  }

  /** The header cache may be named while no slab keeps its header outside. */
  lemma SetHeaderKeepsInv(s: State, id: nat)
    requires Inv(s) && id in s.caches && forall i :: i in s.caches ==> !s.caches[i].large
    ensures Inv(s.(header := id))
  {
    SetHeaderKeepsChains(s, id);
    SetHeaderKeepsRest(s, id);
  }

  lemma SetHeaderKeepsChains(s: State, id: nat)
    requires Chains(s)
    ensures Chains(s.(header := id)) && SameLive(s, s.(header := id))
  {
    var t := s.(header := id);
    SlabCaches(s);
    assert Kept(s, t);
    KeptLive(s, t);
    forall h | h in t.slabs
      ensures SlabInv(t, h)
    {
      KeptSlab(s, t, h);
    }
  }

  lemma SetHeaderKeepsRest(s: State, id: nat)
    requires Headers(s) && Lists(s) && Roots(s) && SameLive(s, s.(header := id))
    requires id in s.caches && forall i :: i in s.caches ==> !s.caches[i].large
    ensures Headers(s.(header := id)) && Lists(s.(header := id)) && Roots(s.(header := id))
  {
    var t := s.(header := id);
    forall h | h in t.slabs
      ensures t.slabs[h].cache in t.caches && HeaderInv(t, h)
    {
      assert HeaderInv(s, h);
    }
    forall i | i in t.caches
      ensures ListInv(t, i) && (i == ROOT || LiveIn(t, ROOT, i))
    {
      assert ListInv(s, i);
      assert forall g :: Owns(t, i, g) <==> Owns(s, i, g);
      if i != ROOT {
        LiveInFollows(s, t, ROOT, i);
      }
    }
  }

  lemma OnlySmallCaches(s: State, a: nat, t: State)
    requires Inv(s) && s.caches.Keys == {ROOT} && Created(s, a, t) && NewShape(t.caches[a], AlignWord(HEADER_SIZE))
    ensures t.caches[a].size == HEADER_SIZE
    ensures forall i :: i in t.caches ==> !t.caches[i].large
  {
    assert SameShape(s.caches[ROOT], t.caches[ROOT]);
  }

  /** A cache without slabs whose geometry is the best for its size. */
  ghost predicate NewShape(c: Cache, size: nat) {
    && c.size == size > 0 && c.large == (size >= LARGE_FROM) && NoSlabs(c) && CacheOk(c)
    && BestPages(size, c.pages) && c.count == Objects(size, c.pages)
  }

  /** The set-up of the descriptor in MemSlabCreate. */
  method ShapeFor(size: nat) returns (c: Cache)
    requires 0 < size < MAX_PAGES * PAGE_SIZE && size % 4 == 0
    ensures NewShape(c, size)
  {
    var pages := ChoosePages(size);
    ShapeOk(size, pages);
    c := Cache(size, size >= LARGE_FROM, pages, Objects(size, pages), [], [], []);
  }

  /** A descriptor was allocated and set up. */
  ghost predicate AddStep(s: State, a: nat, c: Cache, t: State) {
    exists u :: AllocStep(s, ROOT, a, u) && t == AddCache(u, a, c)
  }

  lemma AddedThen(s: State, a: nat, c: Cache, u: State)
    requires AllocStep(s, ROOT, a, u)
    ensures AddStep(s, a, c, AddCache(u, a, c))
  {
  }

  /** Cache `a` is new; all others keep their shape, and no live object changes. */
  ghost predicate Created(s: State, a: nat, t: State) {
    && a !in s.caches && t.caches.Keys == s.caches.Keys + {a}
    && AllUntouched(s, t) && t.header == s.header
    && forall i :: i in s.caches ==> SameShape(s.caches[i], t.caches[i])
  }

  lemma AddCacheLeavesAll(s: State, u: State, a: nat, c: Cache)
    requires Allocated(s, ROOT, a, u) && CacheOk(c) && NoSlabs(c)
    ensures Inv(AddCache(u, a, c)) && AllUntouched(s, AddCache(u, a, c)) && a !in s.caches
  {
    AddCacheKeepsInv(u, a, c);
    AddCacheKeepsChains(u, a, c);
    forall h, k, b | LiveAt(u, h, k, b)
      ensures Untouched(u, AddCache(u, a, c), h, k, b)
    {
      KeptUntouched(u, AddCache(u, a, c), h, k, b);
    }
    UntouchedTransitive(s, u, AddCache(u, a, c));
  }

  /** MemSlabCreate adds a cache and disturbs nothing. */
  lemma AddIsSafe(s: State, a: nat, c: Cache, t: State)
    requires Inv(s) && AddStep(s, a, c, t) && CacheOk(c) && NoSlabs(c)
    ensures Inv(t) && Created(s, a, t) && t.caches[a] == c
  {
    var u :| AllocStep(s, ROOT, a, u) && t == AddCache(u, a, c);
    AllocIsSafe(s, ROOT, a, u);
    AddCacheLeavesAll(s, u, a, c);
    AddCacheCreates(s, u, a, c);
  }

  lemma AddCacheCreates(s: State, u: State, a: nat, c: Cache)
    requires Extends(s, u) && a !in u.caches && AllUntouched(s, AddCache(u, a, c))
    ensures Created(s, a, AddCache(u, a, c))
  {
    var t := AddCache(u, a, c);
    assert t.caches.Keys == u.caches.Keys + {a};
    assert forall i :: i in s.caches ==> i != a && t.caches[i] == u.caches[i];
  }

  /** The header is ready and the pages are free, so the slab can be set up. */
  ghost predicate HasHeader(s: State, id: nat, page: nat, h: nat) {
    && id in s.caches && h !in s.slabs && h !in s.caches
    && CacheOk(s.caches[id]) && page + s.caches[id].pages <= FIXED_PAGES && Pages(page, s.caches[id].pages) !! s.used
    && (if s.caches[id].large then LiveIn(s, s.header, h) else h + HEADER_SIZE == PageAddr(page + s.caches[id].pages))
  }

  lemma HeaderIsReady(s: State, id: nat, page: nat, h: nat, u: State)
    requires Inv(s) && id in s.caches && s.caches[id].large && AllocStep(s, s.header, h, u)
    requires page + s.caches[id].pages <= FIXED_PAGES && Pages(page, s.caches[id].pages) !! u.used
    ensures SmallAlloc(s, s.header, h, u) && HasHeader(u, id, page, h) && SameShape(s.caches[id], u.caches[id])
  {
    AllocIsSafe(s, s.header, h, u);
  }

  /** Creating a slab and taking its first object is an allocation. */
  lemma GrowAllocates(s: State, u: State, id: nat, raw: nat, h: nat, mem: map<nat, nat>)
    requires id in s.caches && !HasRoom(s.caches[id])
    requires Inv(u) && CanGrow(u, id, raw, h, mem)
    requires if s.caches[id].large then SmallAlloc(s, s.header, h, u) else u == s
    ensures Poppable(Grow(u, id, raw, h, mem), h)
    ensures Grow(u, id, raw, h, mem).slabs[h].freePtr == PageAddr(raw)
    ensures AllocStep(s, id, PageAddr(raw), Pop(Grow(u, id, raw, h, mem), h))
  {
    NewSlabPoppable(u, id, raw, h, mem);
    assert GrownAt(u, id, h, raw, mem, PageAddr(raw), Pop(Grow(u, id, raw, h, mem), h));
    assert Grown(u, id, h, PageAddr(raw), Pop(Grow(u, id, raw, h, mem), h));
  }

  /** A new slab offers its first object. */
  lemma NewSlabPoppable(s: State, id: nat, raw: nat, h: nat, mem: map<nat, nat>)
    requires Inv(s) && CanGrow(s, id, raw, h, mem)
    ensures Poppable(Grow(s, id, raw, h, mem), h)
    ensures Grow(s, id, raw, h, mem).slabs[h].freePtr == PageAddr(raw)
  {
    assert CacheOk(s.caches[id]);
  }

  /** Object `k` is in the slab's pages and apart from those before it. */
  lemma WriteInside(c: Cache, raw: nat, k: nat)
    requires CacheOk(c) && k < c.count
    ensures PageAddr(raw) <= ObjectAddr(c.size, raw, k) < PageAddr(raw + c.pages)
    ensures forall l: nat :: l < k ==> ObjectAddr(c.size, raw, l) < ObjectAddr(c.size, raw, k)
  {
    ObjectInside(c, raw, k);
    forall l: nat | l < k
      ensures ObjectAddr(c.size, raw, l) < ObjectAddr(c.size, raw, k)
    {
      OffsetGap(c.size, l, k);
    }
  }
}
