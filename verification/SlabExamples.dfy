/**
 Runs of the slab allocator from its boot state that show what freeing and shrinking as coded do to a
 cache whose slabs hold one object each.
 */
module SlabExamples {
  import opened Common
  import opened SlabGeometry
  import opened Slabs
  import opened SlabRuns
  import opened SlabSafety
  import opened SlabAllocator

  /** What MemSlabCreate makes of objects of five pages: one to a slab of eight pages. */
  const BIG := 20480

  function BigCache(): Cache {
    Cache(BIG, true, 8, 1, [], [], [])
  }

  lemma BigShape()
    ensures NewShape(BigCache(), BIG)
  {
    assert forall p: nat :: 0 < p < MAX_PAGES ==> Objects(BIG, p) < 8;
    assert Objects(BIG, 8) == 1;
    assert Offset(BIG, 1) == BIG;
  }

  /** The root cache's first slab is page 0, with its header at the end; its objects 0 and 1 come into use below. */
  const FIRST: nat := 0xC000_0FE8
  const CACHE: nat := 0xC000_0000
  const SLAB: nat := 0xC000_0030

  /** The state the allocator starts in. */
  function Booted(): State {
    State(map[ROOT := RootCache()], map[], map[], map[], {}, ROOT, map[])
  }

  lemma BootHolds()
    ensures Inv(Booted())
  {
    OffsetIsProduct(CACHE_SIZE, RootCache().count);
    assert CacheOk(RootCache());
    assert ListInv(Booted(), ROOT);
  }

  ghost predicate FromBoot(run: Trace) {
    IsRun(run) && First(run) == Booted() && Inv(run.state)
  }

  lemma Extended(before: Trace, op: Op, t: State) returns (run: Trace)
    requires FromBoot(before) && Step(before.state, op, t)
    ensures FromBoot(run) && run.state == t
  {
    run := Then(before, op, t);
    StepKeepsInv(before.state, op, t);
  }

  // ----- A free chain through new pages -----

  function Threaded(size: nat, raw: nat, count: nat, from: nat): map<nat, nat>
    decreases count - from
  {
    if from >= count then map[]
    else
      Threaded(size, raw, count, from + 1)
      [ObjectAddr(size, raw, from) := if from + 1 == count then SLAB_END else ObjectAddr(size, raw, from + 1)]
  }

  lemma {:induction false} ThreadedAt(size: nat, raw: nat, count: nat, from: nat, l: nat)
    requires size > 0 && from <= l < count
    ensures
      var mem, a := Threaded(size, raw, count, from), ObjectAddr(size, raw, l);
      a in mem && mem[a] == if l + 1 == count then SLAB_END else ObjectAddr(size, raw, l + 1)
    decreases count - from
  {
    if from < l {
      ThreadedAt(size, raw, count, from + 1, l);
      OffsetGap(size, from, l);
    }
  }

  lemma ThreadedIsLinked(size: nat, raw: nat, count: nat)
    requires size > 0 && count > 0
    ensures Linked(size, raw, PageAddr(raw), Indices(count), Threaded(size, raw, count, 0))
  {
    var mem := Threaded(size, raw, count, 0);
    forall l: nat | l < count - 1
      ensures ObjectAddr(size, raw, l) in mem && mem[ObjectAddr(size, raw, l)] == ObjectAddr(size, raw, l + 1)
    {
      ThreadedAt(size, raw, count, 0, l);
    }
    ThreadedAt(size, raw, count, 0, count - 1);
    ChainFromLinks(size, raw, count, 0, mem);
    assert Indices(count)[0..] == Indices(count);
  }

  // ----- The run -----

  /** The root cache has its slab, with some objects in use, and the caches are as given. */
  ghost predicate Root(s: State, ids: set<nat>, active: nat) {
    && s.header == ROOT && s.caches.Keys == ids && ROOT in ids && s.slabs.Keys == {FIRST} && s.used == {0}
    && s.slabs[FIRST].cache == ROOT && s.slabs[FIRST].memory == 0 && FIRST in s.chains
    && active < RootCache().count && s.chains[FIRST] == Indices(RootCache().count)[active..]
    && SameShape(s.caches[ROOT], RootCache())
  }

  lemma WithSlab() returns (run: Trace)
    ensures FromBoot(run) && Root(run.state, {ROOT}, 0)
  {
    var c := RootCache();
    var mem := Threaded(c.size, 0, c.count, 0);
    BootHolds();
    ThreadedIsLinked(c.size, 0, c.count);
    assert Pages(0, 1) == {0};
    assert Indices(c.count)[0..] == Indices(c.count);
    run := Extended(Start(Booted()), NewSlab(ROOT, 0, FIRST, mem), Grow(Booted(), ROOT, 0, FIRST, mem));
  }

  /** The next object of the root cache is taken. */
  lemma NextTaken(s: State, ids: set<nat>, active: nat)
    requires Inv(s) && Root(s, ids, active) && active + 1 < RootCache().count
    ensures Poppable(s, FIRST) && s.slabs[FIRST].freePtr == ObjectAddr(CACHE_SIZE, 0, active)
    ensures Root(Pop(s, FIRST), ids, active + 1) && LiveIn(Pop(s, FIRST), ROOT, ObjectAddr(CACHE_SIZE, 0, active))
    ensures forall id :: id in s.caches && id != ROOT ==> Pop(s, FIRST).caches[id] == s.caches[id]
  {
    assert SlabInv(s, FIRST);
    assert s.chains[FIRST][0] == active && s.chains[FIRST][1..] == Indices(RootCache().count)[active + 1..];
    PopAllocates(s, FIRST);
    PopReady(s, FIRST);
  }

  lemma WithDescriptor() returns (run: Trace)
    ensures FromBoot(run) && Root(run.state, {ROOT}, 1) && LiveIn(run.state, ROOT, CACHE)
  {
    run := WithSlab();
    NextTaken(run.state, {ROOT}, 0);
    run := Extended(run, Take(FIRST), Pop(run.state, FIRST));
  }

  /** MemSlabCreate of the big cache: its descriptor is the root cache's first object. */
  lemma WithCache() returns (run: Trace)
    ensures FromBoot(run) && Root(run.state, {ROOT, CACHE}, 1) && run.state.caches[CACHE] == BigCache()
  {
    run := WithDescriptor();
    BigShape();
    run := Extended(run, NewCache(CACHE, BigCache()), AddCache(run.state, CACHE, BigCache()));
  }

  /** The first allocation from it: the header of its slab is the root cache's second object. */
  lemma WithHeader() returns (run: Trace)
    ensures FromBoot(run) && Root(run.state, {ROOT, CACHE}, 2) && run.state.caches[CACHE] == BigCache()
    ensures LiveIn(run.state, ROOT, SLAB)
  {
    run := WithCache();
    NextTaken(run.state, {ROOT, CACHE}, 1);
    assert ObjectAddr(CACHE_SIZE, 0, 1) == SLAB by {
      assert Offset(CACHE_SIZE, 1) == CACHE_SIZE;
    }
    run := Extended(run, Take(FIRST), Pop(run.state, FIRST));
  }

  /** The big cache has one slab, which is empty. */
  ghost predicate OneEmpty(s: State) {
    && s.header == ROOT && CACHE in s.caches && s.caches[CACHE] == BigCache().(empty := [SLAB])
    && SLAB in s.slabs && s.slabs[SLAB] == Slab(CACHE, 0, 1, PageAddr(1))
    && SLAB in s.chains && s.chains[SLAB] == [0] && PageAddr(1) in s.mem && s.mem[PageAddr(1)] == SLAB_END
  }

  lemma OneLinked(mem: map<nat, nat>)
    requires PageAddr(1) in mem && mem[PageAddr(1)] == SLAB_END
    ensures Indices(1) == [0] && Linked(BIG, 1, PageAddr(1), Indices(1), mem)
  {
    assert Indices(1) == [0] && [0][1..] == [];
    assert Linked(BIG, 1, SLAB_END, [], mem);
  }

  lemma OneEmptySlab() returns (run: Trace)
    ensures FromBoot(run) && OneEmpty(run.state)
  {
    run := WithHeader();
    var mem := run.state.mem[PageAddr(1) := SLAB_END];
    OneLinked(mem);
    assert 0 !in Pages(1, 8);
    assert [] + [SLAB] == [SLAB];
    assert CanGrow(run.state, CACHE, 1, SLAB, mem);
    run := Extended(run, NewSlab(CACHE, 1, SLAB, mem), Grow(run.state, CACHE, 1, SLAB, mem));
  }

  lemma OnlyObjectTaken(e: State)
    requires OneEmpty(e)
    ensures Poppable(e, SLAB) && Pop(e, SLAB).slabs[SLAB] == Slab(CACHE, 1, 1, SLAB_END)
    ensures LiveAt(Pop(e, SLAB), SLAB, 0, PageAddr(1)) && Pop(e, SLAB).caches[CACHE].count == 1
  {
    assert ToFull(BigCache().(empty := [SLAB]), SLAB) == BigCache().(full := [SLAB]);
    assert [0][1..] == [];
  }

  /** Using a one-object slab and freeing it again does not bring it back to the list of empty slabs. */
  lemma EmptiedSlabIsNotListed() returns (run: Trace, s: State)
    ensures FromBoot(run) && run.Then? && run.op == Give(SLAB, 0, PageAddr(1)) && s == run.state
    ensures Owns(s, CACHE, SLAB) && s.slabs[SLAB].active == 0
    ensures CACHE in s.caches && SLAB !in s.caches[CACHE].empty && s.caches[CACHE].size == BIG
  {
    var used := InUse();
    s := used.state;
    EmptiedSlabIsListedIff(s, SLAB, 0, PageAddr(1));
    run := Then(used, Give(SLAB, 0, PageAddr(1)), Push(s, SLAB, 0));
    StepKeepsInv(s, run.op, run.state);
    s := run.state;
  }

  lemma InUse() returns (run: Trace)
    ensures FromBoot(run) && LiveAt(run.state, SLAB, 0, PageAddr(1))
    ensures run.state.slabs[SLAB] == Slab(CACHE, 1, 1, SLAB_END)
    ensures run.state.caches[CACHE].count == 1 && run.state.caches[CACHE].size == BIG
    ensures PageAddr(1) !in run.state.slabs && PageAddr(1) !in run.state.caches
  {
    run := OneEmptySlab();
    OnlyObjectTaken(run.state);
    PopAllocates(run.state, SLAB);
    run := Extended(run, Take(SLAB), Pop(run.state, SLAB));
  }

  /** The list as MemSlabShrink leaves it, read without its one slab. */
  lemma ListKept(s: State, b: State, id: nat, v: State)
    requires id in s.caches && |s.caches[id].empty| == 1
    requires id in b.caches && b.caches[id] == s.caches[id].(empty := [])
    requires v == b.(caches := b.caches[id := s.caches[id]])
    ensures Behind(v, id, 1) == b
  {
    assert s.caches[id].empty[1..] == [];
    assert Behind(v, id, 1).caches == b.caches;
  }

  lemma NoneLeft(c: Cache)
    requires |c.empty| == 1
    ensures c.(empty := c.empty[1..]) == c.(empty := [])
  {
  }

  lemma Released(s: State, id: nat) returns (b: State)
    requires Inv(s) && id in s.caches && s.caches[id].large && |s.caches[id].empty| == 1 && id != s.header
    ensures Inv(b) && Spared(s, b) && b.header == s.header && s.caches[id].empty[0] !in b.slabs
    ensures id in b.caches && b.caches[id] == s.caches[id].(empty := [])
  {
    NoneLeft(s.caches[id]);
    var g, k := ReleaseReady(s, id);
    b := Push(Drop(s, id), g, k);
    ReleaseIsSafe(s, id, g, k, b);
    ReleaseShape(s, id, g, k, b);
  }

  lemma IsShrunk(s: State, v: State, b: State, id: nat)
    requires id in s.caches && |s.caches[id].empty| == 1 && id in v.caches && v.caches[id] == s.caches[id]
    requires v.header == s.header && Inv(b) && Spared(s, b) && Behind(v, id, 1) == b && v.slabs == b.slabs
    requires s.caches[id].empty[0] !in b.slabs
    ensures Shrunk(s, v, b, id, 1)
  {
  }

  lemma Dangles(s: State, id: nat) returns (v: State, b: State)
    requires Inv(s) && id in s.caches && s.caches[id].large && |s.caches[id].empty| == 1 && id != s.header
    ensures Shrunk(s, v, b, id, 1) && v.caches[id] == s.caches[id]
  {
    b := Released(s, id);
    v := b.(caches := b.caches[id := s.caches[id]]);
    ListKept(s, b, id, v);
    IsShrunk(s, v, b, id);
  }

  /** MemSlabShrink gives the slab back and leaves it on the list. */
  lemma ShrinkLeavesDanglingSlab() returns (run: Trace, v: State, b: State)
    ensures FromBoot(run) && OneEmpty(run.state)
    ensures Shrunk(run.state, v, b, CACHE, 1) && SLAB !in v.slabs && v.caches[CACHE].empty == [SLAB] && !Inv(v)
  {
    run := OneEmptySlab();
    v, b := Dangles(run.state, CACHE);
    ShrunkInvIff(run.state, v, b, CACHE);
  }
}
