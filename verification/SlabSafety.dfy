/**
 Safety of the slab allocator over whole runs: nothing but its owner changes a live object, objects
 never overlap, and the three lists of a cache say what its slabs are.
 */
module SlabSafety {
  import opened Common
  import opened SlabGeometry
  import opened Slabs
  import opened SlabRuns

  /** The object is still live, of the same size, with the same contents. */
  ghost predicate Untouched(s: State, t: State, h: nat, k: nat, a: nat) {
    && LiveAt(s, h, k, a) && LiveAt(t, h, k, a)
    && t.slabs[h].cache == s.slabs[h].cache
    && t.caches[t.slabs[h].cache].size == s.caches[s.slabs[h].cache].size
    && forall b :: a <= b < a + s.caches[s.slabs[h].cache].size && b in s.mem ==> b in t.mem && t.mem[b] == s.mem[b]
  }

  /**
   The steps the operations are made of. `Take` and `NewSlab` make up MemSlabAlloc, `Give` is
   MemSlabFree, `NewCache` ends MemSlabCreate, and MemSlabDestroy is made of `DropSlab`s, `Give`s and
   `EndCache`. `Put` is a caller writing a word of an object it holds.
   */
  datatype Op =
    | Take(slab: nat)
    | Give(slab: nat, index: nat, at: nat)
    | Put(slab: nat, index: nat, at: nat, word: nat, value: nat)
    | NewSlab(cache: nat, page: nat, slab: nat, mem: map<nat, nat>)
    | NewCache(cache: nat, shape: Cache)
    | DropSlab(cache: nat)
    | EndCache(cache: nat)

  ghost predicate Poppable(s: State, h: nat) {
    && h in s.slabs && s.slabs[h].cache in s.caches && s.slabs[h].freePtr in s.mem
    && h in s.chains && s.chains[h] != []
  }

  predicate NoSlabs(c: Cache) {
    c.full == [] && c.partial == [] && c.empty == []
  }

  ghost predicate Step(s: State, op: Op, t: State) {
    match op
    case Take(h) => Poppable(s, h) && t == Pop(s, h)
    case Give(h, k, a) =>
      LiveAt(s, h, k, a) && a !in s.slabs && a !in s.caches && s.slabs[h].active > 0 && t == Push(s, h, k)
    case Put(h, k, a, b, w) =>
      && LiveAt(s, h, k, a) && a !in s.slabs && a !in s.caches
      && a <= b < a + s.caches[s.slabs[h].cache].size && b % 4 == 0 && t == s.(mem := s.mem[b := w])
    case NewSlab(id, raw, h, mem) => CanGrow(s, id, raw, h, mem) && t == Grow(s, id, raw, h, mem)
    case NewCache(a, c) =>
      a !in s.caches && a !in s.slabs && LiveIn(s, ROOT, a) && CacheOk(c) && NoSlabs(c) && t == AddCache(s, a, c)
    case DropSlab(id) =>
      id in s.caches && s.caches[id].empty != [] && s.caches[id].empty[0] in s.slabs && t == Drop(s, id)
    case EndCache(id) =>
      id in s.caches && id != ROOT && id != s.header && NoSlabs(s.caches[id]) && t == RemoveCache(s, id)
  }

  /** Every step keeps the free chains, the page table, the lists and the headers in order. */
  lemma StepKeepsInv(s: State, op: Op, t: State)
    requires Inv(s) && Step(s, op, t)
    ensures Inv(t)
  {
    match op
    case Take(h) => PopKeepsInv(s, h);
    case Give(h, k, a) => PushKeepsInv(s, h, k, a);
    case Put(h, k, a, b, w) => WriteKeepsInv(s, h, k, a, b, w);
    case NewSlab(id, raw, h, mem) => GrowKeepsInv(s, id, raw, h, mem);
    case NewCache(a, c) => AddCacheKeepsInv(s, a, c);
    case DropSlab(id) => DropKeepsInv(s, id);
    case EndCache(id) => RemoveCacheKeepsInv(s, id);
  }

  // ----- Contents -----

  lemma PopUntouched(s: State, g: nat, h: nat, k: nat, a: nat)
    requires Chains(s) && Poppable(s, g) && LiveAt(s, h, k, a)
    ensures Untouched(s, Pop(s, g), h, k, a)
  {
    PopReady(s, g);
    AroundShapes(s, Pop(s, g), g);
  }

  lemma PushUntouched(s: State, g: nat, l: nat, o: nat, h: nat, k: nat, a: nat)
    requires Chains(s) && LiveAt(s, g, l, o) && LiveAt(s, h, k, a) && o != a
    ensures s.slabs[g].active > 0 && Untouched(s, Push(s, g, l), h, k, a)
  {
    PushAround(s, g, l, o);
    var t := Push(s, g, l);
    assert g != h || l != k;
    LiveAtAfterPush(s, t, g, l, h, k, a);
    AroundShapes(s, t, g);
    LinkElsewhere(s, g, l, o, h, k, a);
    assert t.mem == s.mem[o := s.slabs[g].freePtr];
  }

  /** The word that links a freed object into its chain lies outside every other object. */
  lemma LinkElsewhere(s: State, g: nat, l: nat, o: nat, h: nat, k: nat, a: nat)
    requires Chains(s) && LiveAt(s, g, l, o) && LiveAt(s, h, k, a) && o != a
    ensures !(a <= o < a + s.caches[s.slabs[h].cache].size)
  {
    ObjectsDisjoint(s, g, l, o, h, k, a);
    assert CacheOk(s.caches[s.slabs[g].cache]);
  }

  lemma PutUntouched(s: State, g: nat, l: nat, o: nat, b: nat, w: nat, h: nat, k: nat, a: nat)
    requires Chains(s) && LiveAt(s, g, l, o) && LiveAt(s, h, k, a) && o != a
    requires o <= b < o + s.caches[s.slabs[g].cache].size
    ensures Untouched(s, s.(mem := s.mem[b := w]), h, k, a)
  {
    ObjectsDisjoint(s, g, l, o, h, k, a);
    var t := s.(mem := s.mem[b := w]);
    assert IsObject(t, h, k, a);
  }

  lemma GrowUntouched(s: State, id: nat, raw: nat, g: nat, mem: map<nat, nat>, h: nat, k: nat, a: nat)
    requires Chains(s) && CanGrow(s, id, raw, g, mem) && LiveAt(s, h, k, a)
    ensures Untouched(s, Grow(s, id, raw, g, mem), h, k, a)
  {
    var c, sl, pages := s.caches[s.slabs[h].cache], s.slabs[h], s.caches[id].pages;
    assert SlabInv(s, h);
    forall b | a <= b < a + c.size && b in s.mem
      ensures b in mem && mem[b] == s.mem[b]
    {
      ByteInPages(c, sl, k, b);
      assert PageOf(b) in s.used;
      if PageAddr(raw) <= b < PageAddr(raw + pages) {
        PageBounds(b, raw, pages);
      }
    }
    var t := Grow(s, id, raw, g, mem);
    assert IsObject(t, h, k, a);
  }

  lemma KeptUntouched(s: State, t: State, h: nat, k: nat, a: nat)
    requires Kept(s, t) && SameLive(s, t) && LiveAt(s, h, k, a)
    ensures Untouched(s, t, h, k, a)
  {
    assert LiveAt(t, h, k, a);
  }

  lemma DropUntouched(s: State, id: nat, h: nat, k: nat, a: nat)
    requires Chains(s) && Lists(s) && LiveAt(s, h, k, a) && id in s.caches && s.caches[id].empty != []
    ensures s.caches[id].empty[0] in s.slabs && Untouched(s, Drop(s, id), h, k, a)
  {
    EmptySlab(s, id);
    DropKeepsChains(s, id);
    KeptUntouched(s, Drop(s, id), h, k, a);
  }

  lemma EndCacheUntouched(s: State, id: nat, h: nat, k: nat, a: nat)
    requires Chains(s) && Lists(s) && LiveAt(s, h, k, a) && id in s.caches && NoSlabs(s.caches[id])
    ensures Untouched(s, RemoveCache(s, id), h, k, a)
  {
    NoSlabsLeft(s, id);
    RemoveCacheKeepsChains(s, id);
    KeptUntouched(s, RemoveCache(s, id), h, k, a);
  }

  /** The caller gives the object back or writes to it. */
  predicate Uses(op: Op, a: nat) {
    (op.Give? || op.Put?) && op.at == a
  }

  /** A step leaves every live object alone unless it is the owner's own. */
  lemma StepKeepsObject(s: State, op: Op, t: State, h: nat, k: nat, a: nat)
    requires Inv(s) && Step(s, op, t) && LiveAt(s, h, k, a) && !Uses(op, a)
    ensures Untouched(s, t, h, k, a)
  {
    match op
    case Take(g) => PopUntouched(s, g, h, k, a);
    case Give(g, l, o) => PushUntouched(s, g, l, o, h, k, a);
    case Put(g, l, o, b, w) => PutUntouched(s, g, l, o, b, w, h, k, a);
    case NewSlab(id, raw, g, mem) => GrowUntouched(s, id, raw, g, mem, h, k, a);
    case NewCache(d, c) =>
      AddCacheKeepsChains(s, d, c);
      KeptUntouched(s, t, h, k, a);
    case DropSlab(id) => DropUntouched(s, id, h, k, a);
    case EndCache(id) => EndCacheUntouched(s, id, h, k, a);
  }

  /** A run of the allocator and its callers. */
  datatype Trace =
    | Start(state: State)
    | Then(before: Trace, op: Op, state: State)

  ghost predicate IsRun(run: Trace) {
    match run
    case Start(_) => true
    case Then(before, op, t) => IsRun(before) && Step(before.state, op, t)
  }

  function First(run: Trace): State {
    match run
    case Start(s) => s
    case Then(before, _, _) => First(before)
  }

  /** No step of the run gives the object back or writes to it. */
  predicate LeavesAlone(run: Trace, a: nat) {
    match run
    case Start(_) => true
    case Then(before, op, _) => LeavesAlone(before, a) && !Uses(op, a)
  }

  /** Every state of a run satisfies the invariant if the first does. */
  lemma {:induction false} RunKeepsInv(run: Trace)
    requires IsRun(run) && Inv(First(run))
    ensures Inv(run.state)
  {
    match run
    case Start(_) =>
    case Then(before, op, t) =>
      RunKeepsInv(before);
      StepKeepsInv(before.state, op, t);
  }

  lemma StepKeepsContents(s0: State, s: State, op: Op, t: State, h: nat, k: nat, a: nat)
    requires Untouched(s0, s, h, k, a) && Inv(s) && Step(s, op, t) && !Uses(op, a)
    ensures Untouched(s0, t, h, k, a)
  {
    StepKeepsObject(s, op, t, h, k, a);
  }

  /** Over any run, an object's contents are what they were until its owner uses it again. */
  lemma {:induction false} RunKeepsObject(run: Trace, h: nat, k: nat, a: nat)
    requires IsRun(run) && Inv(First(run)) && LiveAt(First(run), h, k, a) && LeavesAlone(run, a)
    ensures Untouched(First(run), run.state, h, k, a)
  {
    match run
    case Start(_) =>
    case Then(before, op, t) =>
      RunKeepsObject(before, h, k, a);
      RunKeepsInv(before);
      StepKeepsContents(First(run), before.state, op, t, h, k, a);
  }

  // ----- MemSlabAlloc as a whole -----

  predicate HasRoom(c: Cache) {
    c.partial != [] || c.empty != []
  }

  /** The slab MemSlabAlloc takes from when it need not create one. */
  function Chosen(c: Cache): nat
    requires HasRoom(c)
  {
    if c.partial != [] then c.partial[0] else c.empty[0]
  }

  /** A new slab with header `h` is created and its first object taken. */
  ghost predicate Grown(s: State, id: nat, h: nat, a: nat, t: State) {
    exists raw, mem :: GrownAt(s, id, h, raw, mem, a, t)
  }

  ghost predicate GrownAt(s: State, id: nat, h: nat, raw: nat, mem: map<nat, nat>, a: nat, t: State) {
    && CanGrow(s, id, raw, h, mem) && a == PageAddr(raw)
    && Poppable(Grow(s, id, raw, h, mem), h) && t == Pop(Grow(s, id, raw, h, mem), h)
  }

  /** MemSlabAlloc on a cache that keeps its headers in its slabs. */
  ghost predicate SmallAlloc(s: State, id: nat, a: nat, t: State) {
    id in s.caches &&
    if HasRoom(s.caches[id]) then
      var h := Chosen(s.caches[id]);
      Poppable(s, h) && a == s.slabs[h].freePtr && t == Pop(s, h)
    else
      exists h :: Grown(s, id, h, a, t)
  }

  /** MemSlabAlloc: a new large slab first allocates its header, from a cache that is not large itself. */
  ghost predicate AllocStep(s: State, id: nat, a: nat, t: State) {
    id in s.caches &&
    if HasRoom(s.caches[id]) || !s.caches[id].large then SmallAlloc(s, id, a, t)
    else exists h, u :: SmallAlloc(s, s.header, h, u) && Grown(u, id, h, a, t)
  }

  /** No live object was touched. */
  ghost predicate AllUntouched(s: State, t: State) {
    forall h, k, b {:trigger Untouched(s, t, h, k, b)} :: LiveAt(s, h, k, b) ==> Untouched(s, t, h, k, b)
  }

  /** All that was there is still there, and no live object was touched. */
  ghost predicate Extends(s: State, t: State) {
    && AllUntouched(s, t)
    && t.header == s.header && t.caches.Keys == s.caches.Keys && s.slabs.Keys <= t.slabs.Keys
    && forall i :: i in s.caches ==> SameShape(s.caches[i], t.caches[i])
  }

  /** What a caller gets: an object of the cache that overlaps nothing live, and nothing live changed. */
  ghost predicate Allocated(s: State, id: nat, a: nat, t: State) {
    && Inv(t) && LiveIn(t, id, a)
    && !Live(s, a) && a !in t.slabs && a !in t.caches
    && Extends(s, t)
  }

  lemma PopAllocates(s: State, h: nat)
    requires Inv(s) && Poppable(s, h)
    ensures Allocated(s, s.slabs[h].cache, s.slabs[h].freePtr, Pop(s, h))
  {
    var t, a, k := Pop(s, h), s.slabs[h].freePtr, s.chains[h][0];
    PopKeepsInv(s, h);
    PopReady(s, h);
    PopMakesLive(s, h);
    LiveAfterPop(s, t, h, a);
    AroundShapes(s, t, h);
    FreeObjectIsNoHeader(s, h, k, a);
    forall g, l, b | LiveAt(s, g, l, b)
      ensures Untouched(s, t, g, l, b)
    {
      PopUntouched(s, h, g, l, b);
    }
  }

  lemma UntouchedTransitive(s: State, u: State, t: State)
    requires AllUntouched(s, u) && AllUntouched(u, t)
    ensures AllUntouched(s, t)
  {
    forall h, k, b | LiveAt(s, h, k, b)
      ensures Untouched(s, t, h, k, b)
    {
      assert Untouched(s, u, h, k, b) && Untouched(u, t, h, k, b);
    }
  }

  lemma ExtendsTransitive(s: State, u: State, t: State)
    requires Extends(s, u) && Extends(u, t)
    ensures Extends(s, t)
  {
    UntouchedTransitive(s, u, t);
  }

  lemma ExtendsThenAllocates(s: State, u: State, id: nat, a: nat, t: State)
    requires Extends(s, u) && Allocated(u, id, a, t)
    ensures Allocated(s, id, a, t)
  {
    ExtendsTransitive(s, u, t);
    if Live(s, a) {
      LiveUntouched(s, u, a);
    }
  }

  lemma GrowShapes(s: State, id: nat, raw: nat, h: nat, mem: map<nat, nat>)
    requires id in s.caches
    ensures
      var t := Grow(s, id, raw, h, mem);
      && t.header == s.header && t.caches.Keys == s.caches.Keys && s.slabs.Keys <= t.slabs.Keys
      && forall i :: i in s.caches ==> SameShape(s.caches[i], t.caches[i])
  {
  }

  lemma GrowLeavesAll(s: State, id: nat, raw: nat, h: nat, mem: map<nat, nat>)
    requires Chains(s) && CanGrow(s, id, raw, h, mem)
    ensures Extends(s, Grow(s, id, raw, h, mem))
  {
    GrowShapes(s, id, raw, h, mem);
    forall g, l, b | LiveAt(s, g, l, b)
      ensures Untouched(s, Grow(s, id, raw, h, mem), g, l, b)
    {
      GrowUntouched(s, id, raw, h, mem, g, l, b);
    }
  }

  lemma GrownAllocates(s: State, id: nat, h: nat, a: nat, t: State)
    requires Inv(s) && Grown(s, id, h, a, t)
    ensures Allocated(s, id, a, t)
  {
    var raw, mem :| GrownAt(s, id, h, raw, mem, a, t);
    var u := Grow(s, id, raw, h, mem);
    GrowKeepsInv(s, id, raw, h, mem);
    GrowLeavesAll(s, id, raw, h, mem);
    PopAllocates(u, h);
    ExtendsThenAllocates(s, u, id, a, t);
  }

  lemma RoomIsPoppable(s: State, id: nat)
    requires Inv(s) && id in s.caches && HasRoom(s.caches[id])
    ensures Poppable(s, Chosen(s.caches[id])) && s.slabs[Chosen(s.caches[id])].cache == id
  {
    var c, h := s.caches[id], Chosen(s.caches[id]);
    assert ListInv(s, id);
    InByCount(c.partial, h);
    InByCount(c.empty, h);
    assert Occurrences(c, h) > 0;
    PopReady(s, h);
  }

  lemma SmallAllocates(s: State, id: nat, a: nat, t: State)
    requires Inv(s) && SmallAlloc(s, id, a, t)
    ensures Allocated(s, id, a, t)
  {
    if HasRoom(s.caches[id]) {
      RoomIsPoppable(s, id);
      PopAllocates(s, Chosen(s.caches[id]));
    } else {
      var h :| Grown(s, id, h, a, t);
      GrownAllocates(s, id, h, a, t);
    }
  }

  lemma LiveUntouched(s: State, t: State, a: nat)
    requires AllUntouched(s, t) && Live(s, a)
    ensures Live(t, a)
  {
    var h, k :| LiveAt(s, h, k, a);
    assert Untouched(s, t, h, k, a);
  }

  /** MemSlabAlloc hands out a new object of the right cache, whichever way it finds one. */
  lemma AllocIsSafe(s: State, id: nat, a: nat, t: State)
    requires Inv(s) && AllocStep(s, id, a, t)
    ensures Allocated(s, id, a, t)
  {
    if HasRoom(s.caches[id]) || !s.caches[id].large {
      SmallAllocates(s, id, a, t);
    } else {
      var h, u :| SmallAlloc(s, s.header, h, u) && Grown(u, id, h, a, t);
      SmallAllocates(s, s.header, h, u);
      GrownAllocates(u, id, h, a, t);
      ExtendsThenAllocates(s, u, id, a, t);
    }
  }

  // ----- MemSlabDestroy -----

  /** The state with the first `i` slabs off the cache's list of empty slabs. */
  function Behind(s: State, id: nat, i: nat): State
    requires id in s.caches && i <= |s.caches[id].empty|
  {
    s.(caches := s.caches[id := s.caches[id].(empty := s.caches[id].empty[i..])])
  }

  /** A turn of MemSlabShrink's loop: the first empty slab's pages go back, and its header if that is an object. */
  ghost predicate ReleaseStep(s: State, id: nat, g: nat, k: nat, t: State) {
    && id in s.caches && s.caches[id].empty != [] && s.caches[id].empty[0] in s.slabs
    && var u := Drop(s, id);
       if s.caches[id].large then
         && LiveAt(u, g, k, s.caches[id].empty[0]) && u.slabs[g].cache == u.header && u.slabs[g].active > 0
         && t == Push(u, g, k)
       else t == u
  }

  /** The callers' objects are as they were. */
  ghost predicate Spared(s: State, t: State) {
    && t.slabs.Keys <= s.slabs.Keys
    && forall h, k, a {:trigger Untouched(s, t, h, k, a)} ::
         LiveAt(s, h, k, a) && a !in s.slabs ==> Untouched(s, t, h, k, a)
  }

  lemma SparedTransitive(s: State, u: State, t: State)
    requires Spared(s, u) && Spared(u, t)
    ensures Spared(s, t)
  {
    forall h, k, a | LiveAt(s, h, k, a) && a !in s.slabs
      ensures Untouched(s, t, h, k, a)
    {
      assert Untouched(s, u, h, k, a) && Untouched(u, t, h, k, a);
    }
  }

  lemma DropSpares(s: State, id: nat)
    requires Inv(s) && id in s.caches && s.caches[id].empty != []
    ensures s.caches[id].empty[0] in s.slabs && Spared(s, Drop(s, id))
  {
    EmptySlab(s, id);
    forall h, k, a | LiveAt(s, h, k, a)
      ensures Untouched(s, Drop(s, id), h, k, a)
    {
      DropUntouched(s, id, h, k, a);
    }
  }

  lemma PushSpares(s: State, g: nat, l: nat, o: nat)
    requires Chains(s) && LiveAt(s, g, l, o)
    ensures s.slabs[g].active > 0 && Push(s, g, l).slabs.Keys == s.slabs.Keys
    ensures forall h, k, a {:trigger Untouched(s, Push(s, g, l), h, k, a)} ::
      LiveAt(s, h, k, a) && a != o ==> Untouched(s, Push(s, g, l), h, k, a)
  {
    LiveIsCounted(s, g, l, o);
    forall h, k, a | LiveAt(s, h, k, a) && a != o
      ensures Untouched(s, Push(s, g, l), h, k, a)
    {
      PushUntouched(s, g, l, o, h, k, a);
    }
  }

  /** Putting back the header spares everything else, as no caller's object is a header. */
  lemma HeaderBackSpares(s: State, u: State, g: nat, l: nat, o: nat)
    requires Spared(s, u) && Inv(u) && LiveAt(u, g, l, o) && o in s.slabs
    ensures u.slabs[g].active > 0 && Spared(s, Push(u, g, l))
  {
    PushSpares(u, g, l, o);
    var t := Push(u, g, l);
    forall h, k, a | LiveAt(s, h, k, a) && a !in s.slabs
      ensures Untouched(s, t, h, k, a)
    {
      assert Untouched(s, u, h, k, a) && Untouched(u, t, h, k, a);
    }
  }

  lemma ReleaseShape(s: State, id: nat, g: nat, k: nat, t: State)
    requires ReleaseStep(s, id, g, k, t) && id != s.header
    ensures t.header == s.header && t.slabs.Keys == s.slabs.Keys - {s.caches[id].empty[0]}
    ensures id in t.caches && t.caches[id] == s.caches[id].(empty := s.caches[id].empty[1..])
  {
    var u := Drop(s, id);
    assert u.slabs.Keys == s.slabs.Keys - {s.caches[id].empty[0]};
  }

  lemma HeaderBack(s: State, id: nat, g: nat, k: nat)
    requires Inv(s) && id in s.caches && s.caches[id].empty != []
    ensures s.caches[id].empty[0] in s.slabs
    ensures LiveAt(Drop(s, id), g, k, s.caches[id].empty[0]) ==>
      && Drop(s, id).slabs[g].active > 0
      && Inv(Push(Drop(s, id), g, k)) && Spared(s, Push(Drop(s, id), g, k))
  {
    DropKeepsInv(s, id);
    DropSpares(s, id);
    var u, h := Drop(s, id), s.caches[id].empty[0];
    if LiveAt(u, g, k, h) {
      assert h !in u.slabs && h !in u.caches;
      PushKeepsInv(u, g, k, h);
      HeaderBackSpares(s, u, g, k, h);
    }
  }

  /** Releasing an empty slab keeps the invariant and the callers' objects. */
  lemma ReleaseIsSafe(s: State, id: nat, g: nat, k: nat, t: State)
    requires Inv(s) && ReleaseStep(s, id, g, k, t)
    ensures Inv(t) && Spared(s, t)
  {
    if s.caches[id].large {
      HeaderBack(s, id, g, k);
    } else {
      DropKeepsInv(s, id);
      DropSpares(s, id);
    }
  }

  // ----- What the lists say -----

  /** Full slabs are those without a free object; with two objects or more, empty ones those without a live one. */
  lemma ListsExact(s: State, id: nat, h: nat)
    requires Inv(s) && id in s.caches
    ensures h in s.caches[id].full <==> Owns(s, id, h) && s.chains[h] == []
    ensures h in s.caches[id].empty ==> Owns(s, id, h) && s.slabs[h].active == 0
    ensures s.caches[id].count >= 2 ==> (h in s.caches[id].empty <==> Owns(s, id, h) && s.slabs[h].active == 0)
    ensures s.caches[id].count >= 2 ==>
      (h in s.caches[id].partial <==> Owns(s, id, h) && s.chains[h] != [] && s.slabs[h].active > 0)
  {
    var c := s.caches[id];
    assert ListInv(s, id) && CacheOk(c);
    InByCount(c.full, h);
    InByCount(c.partial, h);
    InByCount(c.empty, h);
    assert Owns(s, id, h) ==> Placed(c, h, |s.chains[h]|, s.slabs[h].active);
    assert Owns(s, id, h) ==> SlabInv(s, h);
  }

  /** Freeing the last live object of a slab puts it on the empty list only if slabs hold two objects or more. */
  lemma EmptiedSlabIsListedIff(s: State, h: nat, k: nat, a: nat)
    requires Inv(s) && LiveAt(s, h, k, a) && s.slabs[h].active == 1
    ensures h in Push(s, h, k).caches[s.slabs[h].cache].empty <==> s.caches[s.slabs[h].cache].count >= 2
  {
    var id := s.slabs[h].cache;
    assert ListInv(s, id) && Owns(s, id, h) && SlabInv(s, h) && CacheOk(s.caches[id]);
    DetachesOneSlab(s.caches[id], h);
  }

  /** `activeObjs` is the number of live objects of the slab. */
  lemma ActiveCountsLive(s: State, h: nat)
    requires Inv(s) && h in s.slabs
    ensures s.slabs[h].cache in s.caches
    ensures |set k | k in Below(s.caches[s.slabs[h].cache].count) && k !in s.chains[h]| == s.slabs[h].active
  {
    assert SlabInv(s, h);
    NotInChain(s.chains[h], s.caches[s.slabs[h].cache].count);
  }

  lemma NotInChain(chain: seq<nat>, count: nat)
    requires NoDuplicates(chain) && forall i :: 0 <= i < |chain| ==> chain[i] < count
    ensures |set k | k in Below(count) && k !in chain| + |chain| == count
  {
    var free := set i | 0 <= i < |chain| :: chain[i];
    DistinctCount(chain);
    assert (set k | k in Below(count) && k !in chain) == Below(count) - free;
    assert free <= Below(count);
  }

  /** MemSlabDestroy's test read off the slabs and the list of empty ones. */
  lemma DestroyableByLists(s: State, id: nat)
    requires Inv(s) && id in s.caches
    ensures s.caches[id].full == [] && s.caches[id].partial == [] <==>
      forall h :: Owns(s, id, h) ==> s.slabs[h].active == 0 && (s.caches[id].count >= 2 || h in s.caches[id].empty)
  {
    var c := s.caches[id];
    if c.full == [] && c.partial == [] {
      forall h | Owns(s, id, h)
        ensures s.slabs[h].active == 0 && h in c.empty
      {
        assert ListInv(s, id) && Occurrences(c, h) == 1;
        InByCount(c.empty, h);
        ListsExact(s, id, h);
      }
    } else {
      var h := if c.full != [] then c.full[0] else c.partial[0];
      assert ListInv(s, id) && CacheOk(c);
      InByCount(c.full, h);
      InByCount(c.partial, h);
      InByCount(c.empty, h);
      assert Occurrences(c, h) == 1 && Owns(s, id, h) && SlabInv(s, h);
      ListsExact(s, id, h);
    }
  }

  // ----- A slab's history -----

  /** An object of the slab has been handed out since the slab was created. */
  predicate Used(run: Trace, h: nat) {
    match run
    case Start(_) => false
    case Then(before, op, _) => !(op.NewSlab? && op.slab == h) && (op == Take(h) || Used(before, h))
  }

  /** What the invariant says of one slab and the lists of its cache. */
  lemma SlabFacts(s: State, h: nat)
    requires Inv(s) && h in s.slabs
    ensures s.slabs[h].cache in s.caches && h in s.chains
    ensures
      var c := s.caches[s.slabs[h].cache];
      && Occurrences(c, h) == 1 && Placed(c, h, |s.chains[h]|, s.slabs[h].active)
      && |s.chains[h]| + s.slabs[h].active == c.count
  {
    assert SlabInv(s, h);
    assert Owns(s, s.slabs[h].cache, h) && ListInv(s, s.slabs[h].cache);
  }

  ghost predicate Homed(s: State) {
    forall h :: h in s.slabs ==> s.slabs[h].cache in s.caches
  }

  /** The step does not create the slab, so the slab was there before. */
  lemma SlabWasThere(s: State, op: Op, t: State, id: nat, h: nat)
    requires Homed(s) && Step(s, op, t) && Owns(t, id, h) && !(op.NewSlab? && op.slab == h)
    ensures Owns(s, id, h) && id in s.caches
    ensures id in t.caches ==> t.caches[id].count == s.caches[id].count
  {
    assert h in s.slabs;
  }

  lemma PushMoves(c: Cache, g: nat, active: nat, h: nat)
    requires Occurrences(c, g) == 1
    ensures h != g ==> (h in AfterPush(c, g, active).empty <==> h in c.empty)
    ensures h == g && active == c.count ==> h !in AfterPush(c, g, active).empty
  {
    DetachesOneSlab(c, g);
  }

  lemma PopMoves(c: Cache, g: nat, active: nat, ended: bool, h: nat)
    requires Occurrences(c, g) == 1
    ensures h != g ==> (h in AfterPop(c, g, active, ended).empty <==> h in c.empty)
    ensures h == g && ended ==> h !in AfterPop(c, g, active, ended).empty
  {
    DetachesOneSlab(c, g);
  }

  lemma GiveListing(s: State, g: nat, k: nat, id: nat, h: nat)
    requires Inv(s) && g in s.slabs && s.slabs[g].active > 0
    requires Owns(s, id, h) && id in s.caches && s.caches[id].count == 1
    ensures s.slabs[g].cache in s.caches && g in s.chains
    ensures h in Push(s, g, k).caches[id].empty <==> h in s.caches[id].empty
  {
    SlabFacts(s, g);
    PushMoves(s.caches[s.slabs[g].cache], g, s.slabs[g].active, h);
  }

  lemma TakeListing(s: State, g: nat, id: nat, h: nat)
    requires Inv(s) && Poppable(s, g) && Owns(s, id, h) && id in s.caches && s.caches[id].count == 1
    ensures h in Pop(s, g).caches[id].empty <==> h in s.caches[id].empty && g != h
  {
    SlabFacts(s, g);
    PopReady(s, g);
    PopMoves(s.caches[s.slabs[g].cache], g, s.slabs[g].active + 1, s.mem[s.slabs[g].freePtr] == SLAB_END, h);
  }

  lemma DropListing(s: State, i: nat, id: nat, h: nat)
    requires id in s.caches && i in s.caches && s.caches[i].empty != [] && s.caches[i].empty[0] in s.slabs
    requires s.caches[i].empty[0] != h
    ensures h in Drop(s, i).caches[id].empty <==> h in s.caches[id].empty
  {
    var e := s.caches[i].empty;
    assert e == [e[0]] + e[1..];
  }

  lemma OtherListing(s: State, op: Op, t: State, id: nat, h: nat)
    requires Step(s, op, t) && !op.Take? && !op.Give? && !(op.NewSlab? && op.slab == h)
    requires h in s.slabs && h in t.slabs && id in s.caches && id in t.caches && (op.NewCache? ==> op.cache != id)
    ensures h in t.caches[id].empty <==> h in s.caches[id].empty
  {
    if op.DropSlab? {
      DropListing(s, op.cache, id, h);
    }
  }

  lemma StepListing(s: State, op: Op, t: State, id: nat, h: nat)
    requires Inv(s) && Step(s, op, t) && Owns(t, id, h) && id in t.caches
    requires Owns(s, id, h) && id in s.caches && s.caches[id].count == 1 && !(op.NewSlab? && op.slab == h)
    ensures h in t.caches[id].empty <==> h in s.caches[id].empty && op != Take(h)
  {
    if op.Take? {
      TakeListing(s, op.slab, id, h);
    } else if op.Give? {
      GiveListing(s, op.slab, op.index, id, h);
    } else {
      OtherListing(s, op, t, id, h);
    }
  }

  lemma InvHomes(s: State)
    requires Inv(s)
    ensures Homed(s)
  {
    forall h | h in s.slabs
      ensures s.slabs[h].cache in s.caches
    {
      assert SlabInv(s, h);
    }
  }

  /** A one-object slab is on the list of empty slabs exactly if it has never been used. */
  lemma {:induction false} ListedUntilUsed(run: Trace, id: nat, h: nat)
    requires IsRun(run) && Inv(First(run)) && First(run).slabs == map[]
    requires Owns(run.state, id, h) && id in run.state.caches && run.state.caches[id].count == 1
    ensures h in run.state.caches[id].empty <==> !Used(run, h)
  {
    match run
    case Start(_) =>
    case Then(before, op, t) =>
      RunKeepsInv(before);
      if !(op.NewSlab? && op.slab == h) {
        InvHomes(before.state);
        SlabWasThere(before.state, op, t, id, h);
        StepListing(before.state, op, t, id, h);
        ListedUntilUsed(before, id, h);
      }
  }

  /** MemSlabDestroy's test: it succeeds if and only if nothing is live and no one-object slab was ever used. */
  lemma DestroyableIff(run: Trace, id: nat)
    requires IsRun(run) && Inv(First(run)) && First(run).slabs == map[] && id in run.state.caches
    ensures
      var c := run.state.caches[id];
      c.full == [] && c.partial == [] <==>
        forall h :: Owns(run.state, id, h) ==> run.state.slabs[h].active == 0 && (c.count >= 2 || !Used(run, h))
  {
    var s := run.state;
    RunKeepsInv(run);
    DestroyableByLists(s, id);
    assert CacheOk(s.caches[id]);
    forall h | Owns(s, id, h)
      ensures s.caches[id].count >= 2 || (h in s.caches[id].empty <==> !Used(run, h))
    {
      if s.caches[id].count == 1 {
        ListedUntilUsed(run, id, h);
      }
    }
  }

  // ----- Pages -----

  /** The page belongs to slab `h`. */
  predicate PageOfSlab(s: State, h: nat, p: nat) {
    && h in s.slabs && s.slabs[h].cache in s.caches
    && s.slabs[h].memory <= p < s.slabs[h].memory + s.caches[s.slabs[h].cache].pages
  }

  /** The pages taken are those of the slabs, and no others. */
  ghost predicate PagesExact(s: State) {
    forall p :: p in s.used ==> exists h :: PageOfSlab(s, h, p)
  }

  lemma SlabPagesUsed(s: State, h: nat, p: nat)
    requires Chains(s) && PageOfSlab(s, h, p)
    ensures p in s.used && p in s.pageSlab && s.pageSlab[p] == h
  {
    assert SlabInv(s, h);
  }

  /** Every slab is still there with its pages, and nothing more is taken. */
  lemma PagesFollow(s: State, t: State)
    requires PagesExact(s) && t.used == s.used
    requires forall h, p :: PageOfSlab(s, h, p) ==> PageOfSlab(t, h, p)
    ensures PagesExact(t)
  {
    forall p | p in t.used
      ensures exists h :: PageOfSlab(t, h, p)
    {
      var h :| PageOfSlab(s, h, p);
      assert PageOfSlab(t, h, p);
    }
  }

  lemma GrowPages(s: State, id: nat, raw: nat, h: nat, mem: map<nat, nat>)
    requires PagesExact(s) && CanGrow(s, id, raw, h, mem)
    ensures PagesExact(Grow(s, id, raw, h, mem))
  {
    var t := Grow(s, id, raw, h, mem);
    forall p | p in t.used
      ensures exists g :: PageOfSlab(t, g, p)
    {
      if p in s.used {
        var g :| PageOfSlab(s, g, p);
        assert PageOfSlab(t, g, p);
      } else {
        assert PageOfSlab(t, h, p);
      }
    }
  }

  lemma DropPages(s: State, id: nat)
    requires PagesExact(s) && id in s.caches && s.caches[id].empty != [] && Owns(s, id, s.caches[id].empty[0])
    ensures PagesExact(Drop(s, id))
  {
    var t, h := Drop(s, id), s.caches[id].empty[0];
    forall p | p in t.used
      ensures exists g :: PageOfSlab(t, g, p)
    {
      var g :| PageOfSlab(s, g, p);
      assert g != h;
      assert PageOfSlab(t, g, p);
    }
  }

  lemma StepPages(s: State, op: Op, t: State)
    requires Inv(s) && PagesExact(s) && Step(s, op, t)
    ensures PagesExact(t)
  {
    match op
    case Take(h) =>
      PopReady(s, h);
      AroundPages(s, t, h);
    case Give(h, k, a) =>
      PushAround(s, h, k, a);
      AroundPages(s, t, h);
    case Put(_, _, _, _, _) => PagesFollow(s, t);
    case NewSlab(id, raw, h, mem) => GrowPages(s, id, raw, h, mem);
    case NewCache(a, c) => NewCachePages(s, a, c);
    case DropSlab(id) =>
      EmptySlab(s, id);
      DropPages(s, id);
    case EndCache(id) =>
      NoSlabsLeft(s, id);
      EndCachePages(s, id);
  }

  lemma AroundPages(s: State, t: State, h: nat)
    requires PagesExact(s) && Around(s, t, h)
    ensures PagesExact(t)
  {
    AroundShapes(s, t, h);
    PagesFollow(s, t);
  }

  lemma NewCachePages(s: State, a: nat, c: Cache)
    requires PagesExact(s) && a !in s.caches
    ensures PagesExact(AddCache(s, a, c))
  {
    PagesFollow(s, AddCache(s, a, c));
  }

  lemma EndCachePages(s: State, id: nat)
    requires PagesExact(s) && forall h :: h in s.slabs ==> s.slabs[h].cache != id
    ensures PagesExact(RemoveCache(s, id))
  {
    PagesFollow(s, RemoveCache(s, id));
  }

  /** No page leaks: over any run the allocator's pages are those of its slabs, each of one slab. */
  lemma {:induction false} RunKeepsPagesExact(run: Trace, p: nat)
    requires IsRun(run) && Inv(First(run)) && PagesExact(First(run))
    ensures PagesExact(run.state)
    ensures p in run.state.used <==> exists h :: PageOfSlab(run.state, h, p)
    ensures forall g, h :: PageOfSlab(run.state, g, p) && PageOfSlab(run.state, h, p) ==> g == h
  {
    RunKeepsInv(run);
    if run.Then? {
      RunKeepsInv(run.before);
      RunKeepsPagesExact(run.before, p);
      StepPages(run.before.state, run.op, run.state);
    }
    forall h | PageOfSlab(run.state, h, p)
      ensures p in run.state.used && run.state.pageSlab[p] == h
    {
      SlabPagesUsed(run.state, h, p);
    }
  }
}
