/**
 What the operations of kernel/src/mm/slab.c do to the allocator's state, and what every run of
 them keeps: intact free chains, disjoint objects, exact lists.
 */
module SlabRuns {
  import opened Common
  import opened SlabGeometry
  import opened Slabs

  // ----- Changes to one slab -----

  /** Only slab `h`, its chain and the lists of its cache may differ. */
  ghost predicate Around(s: State, t: State, h: nat) {
    && h in s.slabs && s.slabs[h].cache in s.caches && s.slabs.Keys == s.chains.Keys
    && t.slabs.Keys == s.slabs.Keys && t.chains.Keys == s.chains.Keys && t.caches.Keys == s.caches.Keys
    && t.header == s.header && t.pageSlab == s.pageSlab && t.used == s.used
    && t.slabs[h].cache == s.slabs[h].cache && t.slabs[h].memory == s.slabs[h].memory
    && (forall g :: g in s.slabs && g != h ==> t.slabs[g] == s.slabs[g] && t.chains[g] == s.chains[g])
    && SameShape(s.caches[s.slabs[h].cache], t.caches[s.slabs[h].cache])
    && (forall id :: id in s.caches && id != s.slabs[h].cache ==> t.caches[id] == s.caches[id])
  }

  lemma AroundShapes(s: State, t: State, h: nat)
    requires Around(s, t, h)
    ensures forall id :: id in s.caches ==> SameShape(s.caches[id], t.caches[id])
    ensures forall g :: g in s.slabs ==> t.slabs[g].cache == s.slabs[g].cache && t.slabs[g].memory == s.slabs[g].memory
    ensures forall g, k, a :: IsObject(t, g, k, a) <==> IsObject(s, g, k, a)
  {
  }

  lemma AroundKeepsSlab(s: State, t: State, h: nat, g: nat)
    requires Around(s, t, h) && g in s.slabs && SlabInv(s, g)
    requires if g == h then SlabOk(s.caches[s.slabs[h].cache], t.slabs[h], t.chains[h], t.mem)
             else Linked(s.caches[s.slabs[g].cache].size, s.slabs[g].memory, s.slabs[g].freePtr, s.chains[g], t.mem)
    ensures SlabInv(t, g)
  {
  }

  lemma AroundKeepsChains(s: State, t: State, h: nat)
    requires Chains(s) && Around(s, t, h)
    requires SlabOk(s.caches[s.slabs[h].cache], t.slabs[h], t.chains[h], t.mem)
    requires forall g :: g in s.slabs && g != h && s.slabs[g].cache in s.caches ==>
      Linked(s.caches[s.slabs[g].cache].size, s.slabs[g].memory, s.slabs[g].freePtr, s.chains[g], t.mem)
    ensures Chains(t)
  {
    forall g | g in t.slabs
      ensures SlabInv(t, g)
    {
      AroundKeepsSlab(s, t, h, g);
    }
    AroundShapes(s, t, h);
  }

  lemma AroundKeepsLists(s: State, t: State, h: nat)
    requires Lists(s) && Around(s, t, h)
    requires forall g :: Occurrences(t.caches[s.slabs[h].cache], g) == Occurrences(s.caches[s.slabs[h].cache], g)
    requires forall g, free, active :: g != h && Placed(s.caches[s.slabs[h].cache], g, free, active) ==>
      Placed(t.caches[s.slabs[h].cache], g, free, active)
    requires Placed(t.caches[s.slabs[h].cache], h, |t.chains[h]|, t.slabs[h].active)
    ensures Lists(t)
  {
    AroundShapes(s, t, h);
    forall i | i in t.caches
      ensures ListInv(t, i)
    {
      assert ListInv(s, i);
      assert forall g :: Owns(t, i, g) <==> Owns(s, i, g);
    }
  }

  /** Headers and cache descriptors stay live when those that were live stay so. */
  lemma AroundKeepsRest(s: State, t: State, h: nat)
    requires Headers(s) && Roots(s) && Around(s, t, h)
    requires forall g, k, b :: LiveAt(s, g, k, b) && (b in s.slabs || b in s.caches) ==> LiveAt(t, g, k, b)
    ensures Headers(t) && Roots(t)
  {
    AroundShapes(s, t, h);
    forall g | g in t.slabs
      ensures t.slabs[g].cache in t.caches && HeaderInv(t, g)
    {
      assert HeaderInv(s, g);
      if s.caches[s.slabs[g].cache].large {
        LiveInFollows(s, t, s.header, g);
      }
    }
    forall id | id in t.caches && id != ROOT
      ensures LiveIn(t, ROOT, id)
    {
      LiveInFollows(s, t, ROOT, id);
    }
  }

  lemma LiveInFollows(s: State, t: State, id: nat, a: nat)
    requires LiveIn(s, id, a)
    requires forall g, k :: LiveAt(s, g, k, a) ==> LiveAt(t, g, k, a) && t.slabs[g].cache == s.slabs[g].cache
    ensures LiveIn(t, id, a)
  {
    var g, k :| LiveAt(s, g, k, a) && s.slabs[g].cache == id;
    assert LiveAt(t, g, k, a);
  }

  // ----- Taking an object -----

  /** MemSlabAlloc, once it has chosen slab `h`. */
  function Pop(s: State, h: nat): State
    requires h in s.slabs && s.slabs[h].cache in s.caches && s.slabs[h].freePtr in s.mem
    requires h in s.chains && s.chains[h] != []
  {
    var sl := s.slabs[h];
    var next := s.mem[sl.freePtr];
    var c := AfterPop(s.caches[sl.cache], h, sl.active + 1, next == SLAB_END);
    s.(slabs := s.slabs[h := sl.(active := sl.active + 1, freePtr := next)],
       caches := s.caches[sl.cache := c],
       chains := s.chains[h := s.chains[h][1..]])
  }

  /** A slab with a free object can be popped, and its chain ends there exactly if that is the last one. */
  lemma PopReady(s: State, h: nat)
    requires Chains(s) && h in s.slabs && s.chains[h] != []
    ensures s.slabs[h].cache in s.caches && s.slabs[h].freePtr in s.mem
    ensures IsObject(s, h, s.chains[h][0], s.slabs[h].freePtr)
    ensures s.mem[s.slabs[h].freePtr] == SLAB_END <==> |s.chains[h]| == 1
    ensures Around(s, Pop(s, h), h)
  {
    assert SlabInv(s, h);
    var sl, chain := s.slabs[h], s.chains[h];
    var c := s.caches[sl.cache];
    assert Linked(c.size, sl.memory, s.mem[sl.freePtr], chain[1..], s.mem);
    if |chain| > 1 {
      assert chain[1..][0] == chain[1];
      ByteInPages(c, sl, chain[1], ObjectAddr(c.size, sl.memory, chain[1]));
    }
  }

  lemma PopKeepsChains(s: State, h: nat)
    requires Chains(s) && h in s.slabs && s.chains[h] != []
    ensures s.slabs[h].cache in s.caches && s.slabs[h].freePtr in s.mem
    ensures Chains(Pop(s, h))
  {
    PopReady(s, h);
    assert SlabInv(s, h);
    forall g | g in s.slabs
      ensures SlabInv(s, g)
    {
    }
    AroundKeepsChains(s, Pop(s, h), h);
  }

  /** Exactly the first object of the chain becomes live. */
  lemma LiveAfterPop(s: State, t: State, h: nat, a: nat)
    requires Chains(s) && Around(s, t, h) && s.chains[h] != [] && t.chains[h] == s.chains[h][1..]
    requires IsObject(s, h, s.chains[h][0], a)
    ensures !Live(s, a) && LiveAt(t, h, s.chains[h][0], a)
    ensures forall g, l, b :: LiveAt(s, g, l, b) ==> LiveAt(t, g, l, b)
    ensures forall b :: Live(t, b) <==> Live(s, b) || b == a
  {
    AroundShapes(s, t, h);
    var k := s.chains[h][0];
    assert SlabInv(s, h);
    if g, l :| LiveAt(s, g, l, a) {
      ObjectUnique(s, h, k, g, l, a);
    }
    LiveAtAfterPop(s, t, h, h, k, a);
    forall g, l: nat, b
      ensures LiveAt(t, g, l, b) <==> LiveAt(s, g, l, b) || (g == h && l == k && b == a)
    {
      LiveAtAfterPop(s, t, h, g, l, b);
    }
  }

  lemma LiveAtAfterPop(s: State, t: State, h: nat, g: nat, l: nat, b: nat)
    requires Around(s, t, h) && s.chains[h] != [] && t.chains[h] == s.chains[h][1..] && NoDuplicates(s.chains[h])
    ensures LiveAt(t, g, l, b) <==> LiveAt(s, g, l, b) || (IsObject(s, g, l, b) && g == h && l == s.chains[h][0])
  {
    AroundShapes(s, t, h);
    assert IsObject(t, g, l, b) <==> IsObject(s, g, l, b);
  }

  /** MemSlabAlloc hands out an object nobody had; every other object keeps its status. */
  lemma PopMakesLive(s: State, h: nat)
    requires Chains(s) && h in s.slabs && s.chains[h] != []
    ensures s.slabs[h].cache in s.caches && s.slabs[h].freePtr in s.mem
    ensures !Live(s, s.slabs[h].freePtr)
    ensures forall g, l, b :: LiveAt(s, g, l, b) ==> LiveAt(Pop(s, h), g, l, b)
    ensures forall b :: Live(Pop(s, h), b) <==> Live(s, b) || b == s.slabs[h].freePtr
  {
    PopReady(s, h);
    LiveAfterPop(s, Pop(s, h), h, s.slabs[h].freePtr);
  }

  lemma AfterPopMoves(c: Cache, h: nat, active: nat, ended: bool)
    requires Occurrences(c, h) == 1
    ensures forall g :: Occurrences(AfterPop(c, h, active, ended), g) == Occurrences(c, g)
    ensures forall g, free, used :: g != h && Placed(c, g, free, used) ==>
      Placed(AfterPop(c, h, active, ended), g, free, used)
  {
    MovesOneSlab(c, h, ToFull(c, h));
    MovesOneSlab(c, h, ToPartial(c, h));
  }

  lemma PopKeepsLists(s: State, h: nat)
    requires Chains(s) && Lists(s) && h in s.slabs && s.chains[h] != []
    ensures s.slabs[h].cache in s.caches && s.slabs[h].freePtr in s.mem
    ensures Lists(Pop(s, h))
  {
    PopReady(s, h);
    var id := s.slabs[h].cache;
    assert SlabInv(s, h) && ListInv(s, id) && Owns(s, id, h);
    PopPlaces(s.caches[id], h, |s.chains[h]|, s.slabs[h].active);
    AfterPopMoves(s.caches[id], h, s.slabs[h].active + 1, |s.chains[h]| == 1);
    AroundKeepsLists(s, Pop(s, h), h);
  }

  /** MemSlabAlloc from a slab with a free object keeps the invariant. */
  lemma PopKeepsInv(s: State, h: nat)
    requires Inv(s) && h in s.slabs && s.chains[h] != []
    ensures s.slabs[h].cache in s.caches && s.slabs[h].freePtr in s.mem
    ensures Inv(Pop(s, h))
  {
    PopReady(s, h);
    PopKeepsChains(s, h);
    PopKeepsLists(s, h);
    PopMakesLive(s, h);
    AroundKeepsRest(s, Pop(s, h), h);
  }

  // ----- Giving an object back -----

  /** MemSlabFree of object `k` of slab `h`. */
  function Push(s: State, h: nat, k: nat): State
    requires h in s.slabs && s.slabs[h].cache in s.caches && s.slabs[h].active > 0 && h in s.chains
  {
    var sl := s.slabs[h];
    var a := ObjectAddr(s.caches[sl.cache].size, sl.memory, k);
    var c := AfterPush(s.caches[sl.cache], h, sl.active);
    s.(slabs := s.slabs[h := sl.(active := sl.active - 1, freePtr := a)],
       caches := s.caches[sl.cache := c],
       mem := s.mem[a := sl.freePtr],
       chains := s.chains[h := [k] + s.chains[h]])
  }

  lemma {:induction false} LinkedFrame(
    size: nat, memory: nat, ptr: nat, chain: seq<nat>, mem: map<nat, nat>, a: nat, w: nat)
    requires Linked(size, memory, ptr, chain, mem)
    requires forall i :: 0 <= i < |chain| ==> ObjectAddr(size, memory, chain[i]) != a
    ensures Linked(size, memory, ptr, chain, mem[a := w])
    decreases |chain|
  {
    if chain != [] {
      LinkedFrame(size, memory, mem[ptr], chain[1..], mem, a, w);
    }
  }

  /** A word inside a live object is no link of any free chain. */
  lemma LinksElsewhere(s: State, h: nat, k: nat, a: nat, b: nat, g: nat)
    requires Chains(s) && LiveAt(s, h, k, a) && a <= b < a + s.caches[s.slabs[h].cache].size && g in s.slabs
    ensures SlabInv(s, g)
    ensures forall i :: 0 <= i < |s.chains[g]| ==>
      ObjectAddr(s.caches[s.slabs[g].cache].size, s.slabs[g].memory, s.chains[g][i]) != b
  {
    assert SlabInv(s, g);
    forall i | 0 <= i < |s.chains[g]|
      ensures ObjectAddr(s.caches[s.slabs[g].cache].size, s.slabs[g].memory, s.chains[g][i]) != b
    {
      var l := s.chains[g][i];
      var o := ObjectAddr(s.caches[s.slabs[g].cache].size, s.slabs[g].memory, l);
      assert IsObject(s, g, l, o);
      ObjectsDisjoint(s, h, k, a, g, l, o);
    }
  }

  /** Writing a word of a live object keeps every chain. */
  lemma WriteKeepsLinks(s: State, h: nat, k: nat, a: nat, b: nat, w: nat)
    requires Chains(s) && LiveAt(s, h, k, a) && a <= b < a + s.caches[s.slabs[h].cache].size
    ensures forall g :: g in s.slabs && s.slabs[g].cache in s.caches ==>
      Linked(s.caches[s.slabs[g].cache].size, s.slabs[g].memory, s.slabs[g].freePtr, s.chains[g], s.mem[b := w])
  {
    forall g | g in s.slabs && s.slabs[g].cache in s.caches
      ensures Linked(s.caches[s.slabs[g].cache].size, s.slabs[g].memory, s.slabs[g].freePtr, s.chains[g], s.mem[b := w])
    {
      LinksElsewhere(s, h, k, a, b, g);
      var sl := s.slabs[g];
      LinkedFrame(s.caches[sl.cache].size, sl.memory, sl.freePtr, s.chains[g], s.mem, b, w);
    }
  }

  lemma WriteKeepsChains(s: State, h: nat, k: nat, a: nat, b: nat, w: nat)
    requires Chains(s) && LiveAt(s, h, k, a) && a <= b < a + s.caches[s.slabs[h].cache].size
    ensures Chains(s.(mem := s.mem[b := w]))
  {
    WriteKeepsLinks(s, h, k, a, b, w);
    var t := s.(mem := s.mem[b := w]);
    forall g | g in t.slabs
      ensures SlabInv(t, g)
    {
      assert SlabInv(s, g);
    }
  }

  /** A slab with a live object counts it. */
  lemma LiveIsCounted(s: State, h: nat, k: nat, a: nat)
    requires Chains(s) && LiveAt(s, h, k, a)
    ensures s.slabs[h].active > 0
  {
    assert SlabInv(s, h);
    if s.slabs[h].active == 0 {
      CompleteChain(s.chains[h], s.caches[s.slabs[h].cache].count, k);
    }
  }

  /** A chain without repetition as long as the slab has objects contains them all. */
  lemma CompleteChain(chain: seq<nat>, count: nat, k: nat)
    requires NoDuplicates(chain) && (forall i :: 0 <= i < |chain| ==> chain[i] < count) && k < count
    requires k !in chain
    ensures |chain| < count
  {
    var all := Below(count);
    var elements := set i | 0 <= i < |chain| :: chain[i];
    DistinctCount(chain);
    assert elements <= all - {k};
    SubsetCount(elements, all - {k});
  }

  function Below(n: nat): (r: set<nat>)
    ensures |r| == n && forall i: nat :: i in r <==> i < n
  {
    if n == 0 then {} else Below(n - 1) + {n - 1}
  }

  lemma {:induction false} DistinctCount(chain: seq<nat>)
    requires NoDuplicates(chain)
    ensures |set i | 0 <= i < |chain| :: chain[i]| == |chain|
  {
    if chain != [] {
      var n := |chain| - 1;
      DistinctCount(chain[..n]);
      var less := set i | 0 <= i < n :: chain[..n][i];
      assert (set i | 0 <= i < |chain| :: chain[i]) == less + {chain[n]};
    }
  }

  lemma {:induction false} SubsetCount(a: set<nat>, b: set<nat>)
    requires a <= b
    ensures |a| <= |b|
  {
    if x :| x in a {
      SubsetCount(a - {x}, b - {x});
    }
  }

  lemma PushAround(s: State, h: nat, k: nat, a: nat)
    requires Chains(s) && LiveAt(s, h, k, a)
    ensures s.slabs[h].active > 0 && Around(s, Push(s, h, k), h)
  {
    LiveIsCounted(s, h, k, a);
    PushShape(s, h, k);
  }

  lemma PushShape(s: State, h: nat, k: nat)
    requires h in s.slabs && s.slabs[h].cache in s.caches && s.slabs[h].active > 0 && s.slabs.Keys == s.chains.Keys
    ensures Around(s, Push(s, h, k), h)
  {
    var c := s.caches[s.slabs[h].cache];
    assert SameShape(c, AfterPush(c, h, s.slabs[h].active));
  }

  lemma PushedSlab(c: Cache, sl: Slab, chain: seq<nat>, mem: map<nat, nat>, k: nat, a: nat)
    requires SlabOk(c, sl, chain, mem) && k < c.count && k !in chain && sl.active > 0
    requires a == ObjectAddr(c.size, sl.memory, k) && a in mem && mem[a] == sl.freePtr
    ensures SlabOk(c, sl.(active := sl.active - 1, freePtr := a), [k] + chain, mem)
  {
    assert ([k] + chain)[1..] == chain;
  }

  lemma PushKeepsChains(s: State, h: nat, k: nat, a: nat)
    requires Chains(s) && LiveAt(s, h, k, a)
    ensures s.slabs[h].active > 0 && Chains(Push(s, h, k))
  {
    PushAround(s, h, k, a);
    var sl := s.slabs[h];
    WriteKeepsLinks(s, h, k, a, a, sl.freePtr);
    assert SlabInv(s, h);
    PushedSlab(s.caches[sl.cache], sl, s.chains[h], s.mem[a := sl.freePtr], k, a);
    AroundKeepsChains(s, Push(s, h, k), h);
  }

  lemma LiveAtAfterPush(s: State, t: State, h: nat, k: nat, g: nat, l: nat, b: nat)
    requires Around(s, t, h) && t.chains[h] == [k] + s.chains[h]
    ensures LiveAt(t, g, l, b) <==> LiveAt(s, g, l, b) && (g != h || l != k)
  {
    AroundShapes(s, t, h);
    assert IsObject(t, g, l, b) <==> IsObject(s, g, l, b);
  }

  /** Exactly the freed object stops being live. */
  lemma LiveAfterPush(s: State, t: State, h: nat, k: nat, a: nat)
    requires Chains(s) && LiveAt(s, h, k, a) && Around(s, t, h) && t.chains[h] == [k] + s.chains[h]
    ensures forall b :: Live(t, b) <==> Live(s, b) && b != a
  {
    forall b
      ensures Live(t, b) <==> Live(s, b) && b != a
    {
      if g, l: nat :| LiveAt(t, g, l, b) {
        LiveAtAfterPush(s, t, h, k, g, l, b);
        if b == a {
          ObjectUnique(s, h, k, g, l, a);
        }
      }
      if g, l: nat :| LiveAt(s, g, l, b) && b != a {
        LiveAtAfterPush(s, t, h, k, g, l, b);
      }
    }
  }

  lemma OthersStayLive(s: State, t: State, h: nat, k: nat, a: nat)
    requires LiveAt(s, h, k, a) && Around(s, t, h) && t.chains[h] == [k] + s.chains[h]
    ensures forall g, l, b :: LiveAt(s, g, l, b) && b != a ==> LiveAt(t, g, l, b)
  {
    forall g, l: nat, b | LiveAt(s, g, l, b) && b != a
      ensures LiveAt(t, g, l, b)
    {
      LiveAtAfterPush(s, t, h, k, g, l, b);
    }
  }

  lemma AfterPushMoves(c: Cache, h: nat, active: nat)
    requires Occurrences(c, h) == 1
    ensures forall g :: Occurrences(AfterPush(c, h, active), g) == Occurrences(c, g)
    ensures forall g, free, used ::
              g != h && Placed(c, g, free, used) ==> Placed(AfterPush(c, h, active), g, free, used)
  {
    MovesOneSlab(c, h, ToEmpty(c, h));
    MovesOneSlab(c, h, ToPartial(c, h));
  }

  lemma PushKeepsLists(s: State, h: nat, k: nat, a: nat)
    requires Chains(s) && Lists(s) && LiveAt(s, h, k, a)
    ensures s.slabs[h].active > 0 && Lists(Push(s, h, k))
  {
    PushAround(s, h, k, a);
    var id := s.slabs[h].cache;
    assert SlabInv(s, h) && ListInv(s, id) && Owns(s, id, h);
    PushPlaces(s.caches[id], h, |s.chains[h]|, s.slabs[h].active);
    AfterPushMoves(s.caches[id], h, s.slabs[h].active);
    AroundKeepsLists(s, Push(s, h, k), h);
  }

  /** MemSlabFree of a caller's object keeps the invariant, and exactly that object stops being live. */
  lemma PushKeepsInv(s: State, h: nat, k: nat, a: nat)
    requires Inv(s) && LiveAt(s, h, k, a) && a !in s.slabs && a !in s.caches
    ensures s.slabs[h].active > 0 && Inv(Push(s, h, k))
    ensures forall b :: Live(Push(s, h, k), b) <==> Live(s, b) && b != a
  {
    PushAround(s, h, k, a);
    PushKeepsChains(s, h, k, a);
    PushKeepsLists(s, h, k, a);
    LiveAfterPush(s, Push(s, h, k), h, k, a);
    OthersStayLive(s, Push(s, h, k), h, k, a);
    AroundKeepsRest(s, Push(s, h, k), h);
  }

  lemma WriteAround(s: State, h: nat, b: nat, w: nat)
    requires h in s.slabs && s.slabs[h].cache in s.caches && s.slabs.Keys == s.chains.Keys
    ensures Around(s, s.(mem := s.mem[b := w]), h)
    ensures forall g, l, o :: LiveAt(s, g, l, o) ==> LiveAt(s.(mem := s.mem[b := w]), g, l, o)
  {
    var t := s.(mem := s.mem[b := w]);
    assert forall g, l, o :: LiveAt(s, g, l, o) ==> LiveAt(t, g, l, o);
  }

  /** Whatever callers write into their objects, the invariant stays. */
  lemma WriteKeepsInv(s: State, h: nat, k: nat, a: nat, b: nat, w: nat)
    requires Inv(s) && LiveAt(s, h, k, a) && a <= b < a + s.caches[s.slabs[h].cache].size
    ensures Inv(s.(mem := s.mem[b := w]))
  {
    WriteAround(s, h, b, w);
    WriteKeepsChains(s, h, k, a, b, w);
    assert ListInv(s, s.slabs[h].cache) && Owns(s, s.slabs[h].cache, h);
    AroundKeepsLists(s, s.(mem := s.mem[b := w]), h);
    AroundKeepsRest(s, s.(mem := s.mem[b := w]), h);
  }

  // ----- Adding a slab -----

  /** The free chain of a new slab. */
  function Indices(n: nat): seq<nat> {
    seq(n, i requires 0 <= i < n => i)
  }

  function Pages(first: nat, pages: nat): (r: set<nat>)
    ensures forall p: nat :: p in r <==> first <= p < first + pages
  {
    if pages == 0 then {} else Pages(first, pages - 1) + {first + pages - 1}
  }

  /** CreateSlab: `raw` is the first page, `h` the header and `mem` the memory with the new chain in it. */
  function Grow(s: State, id: nat, raw: nat, h: nat, mem: map<nat, nat>): State
    requires id in s.caches
  {
    var c := s.caches[id];
    s.(slabs := s.slabs[h := Slab(id, 0, raw, PageAddr(raw))],
       chains := s.chains[h := Indices(c.count)],
       mem := mem,
       used := s.used + Pages(raw, c.pages),
       pageSlab := s.pageSlab + map p | p in Pages(raw, c.pages) :: h,
       caches := s.caches[id := c.(empty := c.empty + [h])])
  }

  /** Memory outside a run of pages is the same. */
  ghost predicate SameOutside(before: map<nat, nat>, mem: map<nat, nat>, raw: nat, pages: nat) {
    forall a :: a in before && (a < PageAddr(raw) || a >= PageAddr(raw + pages)) ==> a in mem && mem[a] == before[a]
  }

  /** What CreateSlab has at hand: unused pages, a header for them and a chain through their objects. */
  ghost predicate CanGrow(s: State, id: nat, raw: nat, h: nat, mem: map<nat, nat>) {
    && id in s.caches && h !in s.slabs && h !in s.caches
    && raw + s.caches[id].pages <= FIXED_PAGES && Pages(raw, s.caches[id].pages) !! s.used
    && SameOutside(s.mem, mem, raw, s.caches[id].pages)
    && Linked(s.caches[id].size, raw, PageAddr(raw), Indices(s.caches[id].count), mem)
    && (if s.caches[id].large then LiveIn(s, s.header, h) else h + HEADER_SIZE == PageAddr(raw + s.caches[id].pages))
  }

  lemma {:induction false} LinkedAgree(
    size: nat, memory: nat, ptr: nat, chain: seq<nat>, mem: map<nat, nat>, other: map<nat, nat>)
    requires Linked(size, memory, ptr, chain, mem)
    requires forall i :: 0 <= i < |chain| ==>
      var a := ObjectAddr(size, memory, chain[i]); a in mem ==> a in other && other[a] == mem[a]
    ensures Linked(size, memory, ptr, chain, other)
    decreases |chain|
  {
    if chain != [] {
      assert ObjectAddr(size, memory, chain[0]) == ptr;
      LinkedAgree(size, memory, mem[ptr], chain[1..], mem, other);
    }
  }

  /** The pages of an old slab lie outside the new ones. */
  lemma OldSlabApart(s: State, g: nat, k: nat, raw: nat, pages: nat)
    requires Chains(s) && g in s.slabs && Pages(raw, pages) !! s.used
    ensures SlabInv(s, g)
    ensures k < s.caches[s.slabs[g].cache].count ==>
      var a := ObjectAddr(s.caches[s.slabs[g].cache].size, s.slabs[g].memory, k);
      a < PageAddr(raw) || a >= PageAddr(raw + pages)
  {
    assert SlabInv(s, g);
    var c, sl := s.caches[s.slabs[g].cache], s.slabs[g];
    if k < c.count {
      var a := ObjectAddr(c.size, sl.memory, k);
      ByteInPages(c, sl, k, a);
      assert PageOf(a) in s.used;
      if PageAddr(raw) <= a < PageAddr(raw + pages) {
        PageBounds(a, raw, pages);
      }
    }
  }

  lemma GrowKeepsOldSlab(s: State, id: nat, raw: nat, h: nat, mem: map<nat, nat>, g: nat)
    requires Chains(s) && CanGrow(s, id, raw, h, mem) && g in s.slabs
    ensures SlabInv(Grow(s, id, raw, h, mem), g)
  {
    var pages := s.caches[id].pages;
    OldSlabApart(s, g, 0, raw, pages);
    var c, sl, chain := s.caches[s.slabs[g].cache], s.slabs[g], s.chains[g];
    forall i | 0 <= i < |chain|
      ensures var a := ObjectAddr(c.size, sl.memory, chain[i]); a in s.mem ==> a in mem && mem[a] == s.mem[a]
    {
      OldSlabApart(s, g, chain[i], raw, pages);
    }
    LinkedAgree(c.size, sl.memory, sl.freePtr, chain, s.mem, mem);
    GrowKeepsSlab(s, id, raw, h, mem, g);
  }

  lemma GrowKeepsSlab(s: State, id: nat, raw: nat, h: nat, mem: map<nat, nat>, g: nat)
    requires id in s.caches && h !in s.slabs && Pages(raw, s.caches[id].pages) !! s.used
    requires g in s.slabs && SlabInv(s, g)
    requires Linked(s.caches[s.slabs[g].cache].size, s.slabs[g].memory, s.slabs[g].freePtr, s.chains[g], mem)
    ensures SlabInv(Grow(s, id, raw, h, mem), g)
  {
  }

  lemma GrowAddsSlab(s: State, id: nat, raw: nat, h: nat, mem: map<nat, nat>)
    requires CanGrow(s, id, raw, h, mem)
    ensures SlabInv(Grow(s, id, raw, h, mem), h)
  {
    var t := Grow(s, id, raw, h, mem);
    assert SlabOk(s.caches[id], t.slabs[h], Indices(s.caches[id].count), mem);
    assert SlabOk(t.caches[id], t.slabs[h], Indices(s.caches[id].count), mem);
  }

  lemma GrowKeepsShapes(s: State, id: nat, raw: nat, h: nat, mem: map<nat, nat>)
    requires id in s.caches && forall i :: i in s.caches ==> CacheOk(s.caches[i])
    ensures forall i :: i in Grow(s, id, raw, h, mem).caches ==> CacheOk(Grow(s, id, raw, h, mem).caches[i])
    ensures Grow(s, id, raw, h, mem).slabs.Keys == s.slabs.Keys + {h}
    ensures Grow(s, id, raw, h, mem).chains.Keys == s.chains.Keys + {h}
  {
    assert CacheOk(s.caches[id]);
  }

  lemma GrowKeepsChains(s: State, id: nat, raw: nat, h: nat, mem: map<nat, nat>)
    requires Chains(s) && CanGrow(s, id, raw, h, mem)
    ensures Chains(Grow(s, id, raw, h, mem))
  {
    var t := Grow(s, id, raw, h, mem);
    GrowKeepsShapes(s, id, raw, h, mem);
    GrowAddsSlab(s, id, raw, h, mem);
    forall g | g in s.slabs
      ensures SlabInv(t, g)
    {
      GrowKeepsOldSlab(s, id, raw, h, mem, g);
    }
  }

  lemma IndicesComplete(n: nat, l: nat)
    ensures l in Indices(n) <==> l < n
  {
    assert l < n ==> Indices(n)[l] == l;
  }

  /** A new slab has no live objects. */
  lemma GrowKeepsLive(s: State, id: nat, raw: nat, h: nat, mem: map<nat, nat>)
    requires id in s.caches && h !in s.slabs
    ensures forall g, l, b :: LiveAt(s, g, l, b) ==> LiveAt(Grow(s, id, raw, h, mem), g, l, b)
    ensures forall b :: Live(Grow(s, id, raw, h, mem), b) <==> Live(s, b)
  {
    var t := Grow(s, id, raw, h, mem);
    forall b
      ensures Live(t, b) <==> Live(s, b)
    {
      if g, l :| LiveAt(s, g, l, b) {
        assert LiveAt(t, g, l, b);
      }
      if g, l: nat :| LiveAt(t, g, l, b) {
        IndicesComplete(s.caches[id].count, l);
        assert LiveAt(s, g, l, b);
      }
    }
  }

  lemma EmptyGrows(c: Cache, h: nat, d: Cache)
    requires d == c.(empty := c.empty + [h]) && Occurrences(c, h) == 0 && c.count >= 1
    ensures Placed(d, h, c.count, 0)
    ensures forall g, free, active :: g != h && Placed(c, g, free, active) ==> Placed(d, g, free, active)
  {
    InByCount(c.full, h);
    InByCount(c.partial, h);
  }

  lemma GrowKeepsLists(s: State, id: nat, raw: nat, h: nat, mem: map<nat, nat>)
    requires Lists(s) && id in s.caches && h !in s.slabs && s.caches[id].count >= 1
    ensures Lists(Grow(s, id, raw, h, mem))
  {
    var t := Grow(s, id, raw, h, mem);
    assert ListInv(s, id) && !Owns(s, id, h);
    AppendOccurrences(s.caches[id], h, t.caches[id]);
    EmptyGrows(s.caches[id], h, t.caches[id]);
    OthersFollow(s, t, id, h);
  }

  /** Slab `h` came to cache `id`, and the lists took it up. */
  lemma OthersFollow(s: State, t: State, id: nat, h: nat)
    requires Lists(s) && id in s.caches && h !in s.slabs && t.caches.Keys == s.caches.Keys
    requires t.slabs.Keys == s.slabs.Keys + {h} && t.chains.Keys == s.chains.Keys + {h} && t.slabs[h].cache == id
    requires forall g :: g in s.slabs ==> t.slabs[g] == s.slabs[g] && t.chains[g] == s.chains[g]
    requires forall i :: i in s.caches && i != id ==> t.caches[i] == s.caches[i]
    requires forall g :: Occurrences(t.caches[id], g) == Occurrences(s.caches[id], g) + if g == h then 1 else 0
    requires Placed(t.caches[id], h, |t.chains[h]|, t.slabs[h].active)
    requires forall g, free, active :: g != h && Placed(s.caches[id], g, free, active) ==>
      Placed(t.caches[id], g, free, active)
    ensures Lists(t)
  {
    forall i | i in t.caches
      ensures ListInv(t, i)
    {
      assert ListInv(s, i);
      assert forall g :: g != h ==> (Owns(t, i, g) <==> Owns(s, i, g));
      assert Owns(t, i, h) <==> i == id;
    }
  }

  lemma GrowKeepsHeaders(s: State, id: nat, raw: nat, h: nat, mem: map<nat, nat>)
    requires Headers(s) && CanGrow(s, id, raw, h, mem)
    ensures Headers(Grow(s, id, raw, h, mem))
  {
    var t := Grow(s, id, raw, h, mem);
    GrowKeepsLive(s, id, raw, h, mem);
    forall g | g in t.slabs
      ensures t.slabs[g].cache in t.caches && HeaderInv(t, g)
    {
      assert g != h ==> HeaderInv(s, g);
      if t.caches[t.slabs[g].cache].large {
        LiveInFollows(s, t, s.header, g);
      }
    }
  }

  lemma GrowKeepsRoots(s: State, id: nat, raw: nat, h: nat, mem: map<nat, nat>)
    requires Roots(s) && CanGrow(s, id, raw, h, mem)
    ensures Roots(Grow(s, id, raw, h, mem))
  {
    var t := Grow(s, id, raw, h, mem);
    GrowKeepsLive(s, id, raw, h, mem);
    forall i | i in t.caches && i != ROOT
      ensures LiveIn(t, ROOT, i)
    {
      LiveInFollows(s, t, ROOT, i);
    }
  }

  /** CreateSlab keeps the invariant. */
  lemma GrowKeepsInv(s: State, id: nat, raw: nat, h: nat, mem: map<nat, nat>)
    requires Inv(s) && CanGrow(s, id, raw, h, mem)
    ensures Inv(Grow(s, id, raw, h, mem))
  {
    GrowKeepsChains(s, id, raw, h, mem);
    GrowKeepsLists(s, id, raw, h, mem);
    GrowKeepsHeaders(s, id, raw, h, mem);
    GrowKeepsRoots(s, id, raw, h, mem);
  }

  /** A free object is neither a slab header nor a cache descriptor. */
  lemma FreeObjectIsNoHeader(s: State, g: nat, k: nat, a: nat)
    requires Inv(s) && IsObject(s, g, k, a) && !Live(s, a)
    ensures a !in s.slabs && a !in s.caches
  {
    assert SlabInv(s, g);
    ObjectInside(s.caches[s.slabs[g].cache], s.slabs[g].memory, k);
    if a in s.slabs {
      assert HeaderInv(s, a);
      HeadersClear(s, a, g, k, a);
    }
  }

  /** The end of unused pages is no slab's header and no cache's descriptor. */
  lemma FreshTailIsNoHeader(s: State, raw: nat, pages: nat, h: nat)
    requires Inv(s) && pages > 0 && Pages(raw, pages) !! s.used && h + HEADER_SIZE == PageAddr(raw + pages)
    ensures h !in s.slabs && h !in s.caches
  {
    TailPage(raw, pages, h);
    if h in s.slabs {
      HeaderInUsedPage(s, h);
    }
    if h in s.caches {
      DescriptorInUsedPage(s, h);
    }
  }

  lemma TailPage(raw: nat, pages: nat, h: nat)
    requires pages > 0 && h + HEADER_SIZE == PageAddr(raw + pages)
    ensures h >= KERNEL_BASE && PageOf(h) in Pages(raw, pages)
  {
    PageBounds(h, raw, pages);
  }

  lemma DescriptorInUsedPage(s: State, id: nat)
    requires Chains(s) && Roots(s) && id in s.caches && id >= KERNEL_BASE
    ensures PageOf(id) in s.used
  {
    var g, k :| LiveAt(s, g, k, id) && s.slabs[g].cache == ROOT;
    LiveInUsedPage(s, id);
  }

  lemma LiveInUsedPage(s: State, a: nat)
    requires Chains(s) && Live(s, a)
    ensures a >= KERNEL_BASE && PageOf(a) in s.used
  {
    var g, k :| LiveAt(s, g, k, a);
    assert SlabInv(s, g);
    ByteInPages(s.caches[s.slabs[g].cache], s.slabs[g], k, a);
  }

  lemma HeaderInUsedPage(s: State, h: nat)
    requires Chains(s) && h in s.slabs && s.slabs[h].cache in s.caches && HeaderInv(s, h)
    ensures h >= KERNEL_BASE && PageOf(h) in s.used
  {
    var c, sl := s.caches[s.slabs[h].cache], s.slabs[h];
    if c.large {
      LiveInUsedPage(s, h);
    } else {
      assert SlabInv(s, h);
      PageBounds(h, sl.memory, c.pages);
    }
  }

  // ----- Creating and destroying caches -----

  /** The slabs left are as they were. */
  ghost predicate Kept(s: State, t: State) {
    && t.mem == s.mem && t.pageSlab == s.pageSlab && t.chains.Keys == t.slabs.Keys && t.slabs.Keys <= s.slabs.Keys
    && s.slabs.Keys == s.chains.Keys
    && (forall g :: g in t.slabs ==> t.slabs[g] == s.slabs[g] && t.chains[g] == s.chains[g])
    && (forall g :: g in t.slabs ==>
         && t.slabs[g].cache in s.caches && t.slabs[g].cache in t.caches
         && SameShape(s.caches[t.slabs[g].cache], t.caches[t.slabs[g].cache]))
  }

  /** The same objects are live. */
  ghost predicate SameLive(s: State, t: State) {
    forall g, k, b :: LiveAt(t, g, k, b) <==> LiveAt(s, g, k, b)
  }

  lemma KeptLive(s: State, t: State)
    requires Kept(s, t) && forall g, k, b :: LiveAt(s, g, k, b) ==> g in t.slabs
    ensures SameLive(s, t)
  {
    forall g, k: nat, b
      ensures LiveAt(t, g, k, b) <==> LiveAt(s, g, k, b)
    {
      if g in t.slabs {
        assert IsObject(t, g, k, b) <==> IsObject(s, g, k, b);
      }
    }
  }

  lemma KeptRoots(s: State, t: State)
    requires Roots(s) && Kept(s, t) && SameLive(s, t)
    requires t.header == s.header && ROOT in t.caches && t.header in t.caches
    requires !t.caches[ROOT].large && !t.caches[t.header].large
    requires forall id :: id in t.caches && id !in s.caches ==> LiveIn(s, ROOT, id) && id !in s.slabs
    ensures Roots(t)
  {
    forall id | id in t.caches && id != ROOT
      ensures LiveIn(t, ROOT, id)
    {
      LiveInFollows(s, t, ROOT, id);
    }
  }

  lemma KeptHeaders(s: State, t: State)
    requires Headers(s) && Kept(s, t) && SameLive(s, t) && t.header == s.header
    ensures Headers(t)
  {
    forall g | g in t.slabs
      ensures t.slabs[g].cache in t.caches && HeaderInv(t, g)
    {
      assert HeaderInv(s, g);
      if t.caches[t.slabs[g].cache].large {
        LiveInFollows(s, t, s.header, g);
      }
    }
  }

  lemma KeptSlab(s: State, t: State, g: nat)
    requires Kept(s, t) && g in t.slabs && SlabInv(s, g)
    requires forall p: nat :: p in s.used && p in s.pageSlab && s.pageSlab[p] == g ==> p in t.used
    ensures SlabInv(t, g)
  {
  }

  function AddCache(s: State, a: nat, c: Cache): State {
    s.(caches := s.caches[a := c])
  }

  lemma AddCacheKeepsChains(s: State, a: nat, c: Cache)
    requires Chains(s) && a !in s.caches && CacheOk(c)
    ensures Chains(AddCache(s, a, c)) && Kept(s, AddCache(s, a, c)) && SameLive(s, AddCache(s, a, c))
  {
    var t := AddCache(s, a, c);
    SlabCaches(s);
    assert Kept(s, t);
    KeptLive(s, t);
    forall g | g in t.slabs
      ensures SlabInv(t, g)
    {
      KeptSlab(s, t, g);
    }
  }

  /** MemSlabCreate keeps the invariant when the descriptor is a new object. */
  lemma AddCacheKeepsInv(s: State, a: nat, c: Cache)
    requires Inv(s) && a !in s.caches && a !in s.slabs && LiveIn(s, ROOT, a)
    requires CacheOk(c) && c.full == [] && c.partial == [] && c.empty == []
    ensures Inv(AddCache(s, a, c)) && SameLive(s, AddCache(s, a, c))
  {
    var t := AddCache(s, a, c);
    SlabCaches(s);
    AddCacheKeepsChains(s, a, c);
    KeptHeaders(s, t);
    KeptRoots(s, t);
    AddCacheKeepsLists(s, a, c);
  }

  lemma SlabCaches(s: State)
    requires Chains(s)
    ensures forall g :: g in s.slabs ==> s.slabs[g].cache in s.caches
  {
    forall g | g in s.slabs
      ensures s.slabs[g].cache in s.caches
    {
      assert SlabInv(s, g);
    }
  }

  lemma AddCacheKeepsLists(s: State, a: nat, c: Cache)
    requires Lists(s) && a !in s.caches && (forall h :: h in s.slabs ==> s.slabs[h].cache != a)
    requires c.full == [] && c.partial == [] && c.empty == []
    ensures Lists(AddCache(s, a, c))
  {
    var t := AddCache(s, a, c);
    forall id | id in t.caches
      ensures ListInv(t, id)
    {
      assert forall h :: Owns(t, id, h) <==> Owns(s, id, h);
      if id != a {
        assert ListInv(s, id);
      }
    }
  }

  /** One turn of MemSlabShrink's loop on the first slab left: its pages go back, its header is done with. */
  function Drop(s: State, id: nat): State
    requires id in s.caches && s.caches[id].empty != [] && s.caches[id].empty[0] in s.slabs
  {
    var c := s.caches[id];
    var h := c.empty[0];
    s.(slabs := s.slabs - {h},
       chains := s.chains - {h},
       used := s.used - Pages(s.slabs[h].memory, c.pages),
       caches := s.caches[id := c.(empty := c.empty[1..])])
  }

  /** The slabs on the list of empty slabs are this cache's, and without live objects. */
  lemma EmptySlab(s: State, id: nat)
    requires Chains(s) && Lists(s) && id in s.caches && s.caches[id].empty != []
    ensures Owns(s, id, s.caches[id].empty[0]) && s.slabs[s.caches[id].empty[0]].active == 0
    ensures forall k, a :: !LiveAt(s, s.caches[id].empty[0], k, a)
  {
    var h := s.caches[id].empty[0];
    assert ListInv(s, id);
    InByCount(s.caches[id].empty, h);
    assert Occurrences(s.caches[id], h) > 0;
    forall k, a
      ensures !LiveAt(s, h, k, a)
    {
      if LiveAt(s, h, k, a) {
        LiveIsCounted(s, h, k, a);
      }
    }
  }

  lemma DropKept(s: State, id: nat)
    requires id in s.caches && s.caches[id].empty != [] && s.caches[id].empty[0] in s.slabs
    requires s.slabs.Keys == s.chains.Keys && forall g :: g in s.slabs ==> s.slabs[g].cache in s.caches
    ensures Kept(s, Drop(s, id))
  {
  }

  lemma DropKeepsChains(s: State, id: nat)
    requires Chains(s) && id in s.caches && s.caches[id].empty != [] && Owns(s, id, s.caches[id].empty[0])
    requires forall k, a :: !LiveAt(s, s.caches[id].empty[0], k, a)
    ensures Chains(Drop(s, id)) && Kept(s, Drop(s, id)) && SameLive(s, Drop(s, id))
  {
    var t, h := Drop(s, id), s.caches[id].empty[0];
    SlabCaches(s);
    DropKept(s, id);
    KeptLive(s, t);
    assert SlabInv(s, h);
    assert forall p :: p in Pages(s.slabs[h].memory, s.caches[id].pages) ==> p in s.pageSlab && s.pageSlab[p] == h;
    forall g | g in t.slabs
      ensures SlabInv(t, g)
    {
      KeptSlab(s, t, g);
    }
  }

  lemma FirstLeaves(c: Cache, d: Cache)
    requires c.empty != [] && d == c.(empty := c.empty[1..])
    ensures forall g :: Occurrences(d, g) == Occurrences(c, g) - if g == c.empty[0] then 1 else 0
    ensures forall g, free, active :: Placed(c, g, free, active) ==> Placed(d, g, free, active)
  {
    assert c.empty == [c.empty[0]] + c.empty[1..];
  }

  lemma DropKeepsLists(s: State, id: nat)
    requires Lists(s) && id in s.caches && s.caches[id].empty != [] && Owns(s, id, s.caches[id].empty[0])
    ensures Lists(Drop(s, id))
  {
    var t, h := Drop(s, id), s.caches[id].empty[0];
    FirstLeaves(s.caches[id], t.caches[id]);
    SlabLeaves(s, t, id, h);
  }

  /** Slab `h` left cache `id`, and its lists let it go. */
  lemma SlabLeaves(s: State, t: State, id: nat, h: nat)
    requires Lists(s) && id in s.caches && Owns(s, id, h) && t.caches.Keys == s.caches.Keys
    requires t.slabs.Keys == s.slabs.Keys - {h} && t.chains.Keys == s.chains.Keys - {h}
    requires forall g :: g in t.slabs ==> t.slabs[g] == s.slabs[g] && t.chains[g] == s.chains[g]
    requires forall i :: i in s.caches && i != id ==> t.caches[i] == s.caches[i]
    requires forall g :: Occurrences(t.caches[id], g) == Occurrences(s.caches[id], g) - if g == h then 1 else 0
    requires forall g, free, active :: Placed(s.caches[id], g, free, active) ==> Placed(t.caches[id], g, free, active)
    ensures Lists(t)
  {
    forall i | i in t.caches
      ensures ListInv(t, i)
    {
      assert ListInv(s, i);
      assert Owns(s, i, h) <==> i == id;
      forall g
        ensures Owns(t, i, g) <==> Owns(s, i, g) && g != h
      {
      }
    }
  }

  /** Dropping an unused slab keeps the invariant and every live object. */
  lemma DropKeepsInv(s: State, id: nat)
    requires Inv(s) && id in s.caches && s.caches[id].empty != []
    ensures Owns(s, id, s.caches[id].empty[0]) && Inv(Drop(s, id))
    ensures SameLive(s, Drop(s, id))
  {
    EmptySlab(s, id);
    DropKeepsChains(s, id);
    DropKeepsLists(s, id);
    KeptHeaders(s, Drop(s, id));
    DropKeepsRoots(s, id);
  }

  lemma DropKeepsRoots(s: State, id: nat)
    requires Roots(s) && id in s.caches && s.caches[id].empty != [] && s.caches[id].empty[0] in s.slabs
    requires Kept(s, Drop(s, id)) && SameLive(s, Drop(s, id))
    ensures Roots(Drop(s, id))
  {
    var t := Drop(s, id);
    assert t.caches.Keys == s.caches.Keys && forall i :: i in s.caches ==> t.caches[i].large == s.caches[i].large;
    KeptRoots(s, t);
  }

  function RemoveCache(s: State, id: nat): State {
    s.(caches := s.caches - {id})
  }

  lemma NoSlabsLeft(s: State, id: nat)
    requires Lists(s) && id in s.caches
    requires s.caches[id].full == [] && s.caches[id].partial == [] && s.caches[id].empty == []
    ensures forall h :: h in s.slabs ==> s.slabs[h].cache != id
  {
    assert ListInv(s, id);
    forall h | h in s.slabs
      ensures s.slabs[h].cache != id
    {
      assert Owns(s, id, h) ==> Occurrences(s.caches[id], h) == 1;
    }
  }

  lemma RemoveCacheKeepsLists(s: State, id: nat)
    requires Lists(s)
    ensures Lists(RemoveCache(s, id))
  {
    var t := RemoveCache(s, id);
    forall i | i in t.caches
      ensures ListInv(t, i)
    {
      assert ListInv(s, i);
      assert forall h :: Owns(t, i, h) <==> Owns(s, i, h);
    }
  }

  lemma RemoveCacheKeepsChains(s: State, id: nat)
    requires Chains(s) && forall h :: h in s.slabs ==> s.slabs[h].cache != id
    ensures Chains(RemoveCache(s, id)) && Kept(s, RemoveCache(s, id)) && SameLive(s, RemoveCache(s, id))
  {
    var t := RemoveCache(s, id);
    SlabCaches(s);
    assert Kept(s, t);
    KeptLive(s, t);
    forall g | g in t.slabs
      ensures SlabInv(t, g)
    {
      KeptSlab(s, t, g);
    }
  }

  /** A cache without slabs can go; its descriptor is then an ordinary object. */
  lemma RemoveCacheKeepsInv(s: State, id: nat)
    requires Inv(s) && id in s.caches && id != ROOT && id != s.header
    requires s.caches[id].full == [] && s.caches[id].partial == [] && s.caches[id].empty == []
    ensures Inv(RemoveCache(s, id)) && SameLive(s, RemoveCache(s, id))
  {
    NoSlabsLeft(s, id);
    RemoveCacheKeepsChains(s, id);
    RemoveCacheKeepsLists(s, id);
    KeptHeaders(s, RemoveCache(s, id));
    RemoveCacheKeepsRoots(s, id);
  }

  lemma RemoveCacheKeepsRoots(s: State, id: nat)
    requires Roots(s) && id != ROOT && id != s.header && Kept(s, RemoveCache(s, id)) && SameLive(s, RemoveCache(s, id))
    ensures Roots(RemoveCache(s, id))
  {
    KeptRoots(s, RemoveCache(s, id));
  }
}
