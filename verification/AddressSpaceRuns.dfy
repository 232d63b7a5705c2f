/**
 Runs of the copy-on-write system and the simple system they refine, in which every context owns a
 private copy of each of its pages and a clone copies them all at once.
 */
module AddressSpaceRuns {
  import opened Common
  import opened Regions
  import opened AddressSpaces

  /** The steps: user stores the hardware lets through, page faults, and calls into the memory manager. */
  datatype Op =
    | Store(c: nat, address: nat, value: bv8)
    | Fault(c: nat, address: nat, region: nat, frame: nat, table: nat)
    | Init(directory: nat)
    | Clone(c: nat, directory: nat, tables: seq<Option<nat>>)
    | Delete(c: nat)
    | AddRegion(c: nat, at: nat, added: Region)
    | Shrink(c: nat, i: nat, newLength: nat)
    | Extend(c: nat, i: nat, newLength: nat)
    | RemoveRegion(c: nat, i: nat)
    | Pin(f: nat)
    | Unpin(f: nat)

  ghost predicate RegionOf(s: State, c: nat, i: nat) {
    Live(s, c) && i < |s.contexts[c].value.regions|
  }

  /** The handler takes one of its two paths and the frames it needs are free. */
  ghost predicate FaultEnabled(s: State, c: nat, address: nat, r: nat, frame: nat, table: nat)
    requires Shaped(s)
  {
    && RegionOf(s, c, r)
    && var ctx := s.contexts[c].value;
    && ctx.regions[r].Contains(address)
    && address < KERNEL_BASE
    && var v := address / PAGE_SIZE;
    match ctx.ptes[v]
    case Absent =>
      && ctx.regions[r].flags.Accessible()
      && Free(s, frame)
      && (ctx.tables[v / TABLE_ENTRIES].None? ==> Free(s, table) && table != frame)
    case Present(shared, writable) =>
      && !writable
      && ctx.regions[r].flags.writable
      && (s.refs[shared] > 1 ==> Free(s, frame))
  }

  ghost predicate Enabled(s: State, op: Op)
    requires Shaped(s)
  {
    match op
    case Store(c, address, _) =>
      && address < KERNEL_BASE
      && Entry(s, c, address / PAGE_SIZE).Present?
      && Entry(s, c, address / PAGE_SIZE).writable
    case Fault(c, address, r, frame, table) => FaultEnabled(s, c, address, r, frame, table)
    case Init(directory) => Free(s, directory)
    case Clone(c, directory, tables) =>
      && Live(s, c)
      && |tables| == USER_TABLES
      && directory < |s.refs|
      && (forall i :: 0 <= i < USER_TABLES ==> tables[i].Some? == s.contexts[c].value.tables[i].Some?)
      && (forall i :: 0 <= i < USER_TABLES && tables[i].Some? ==> tables[i].value < |s.refs|)
      && (forall f :: 0 <= f < |s.refs| ==>
            var taken := ContextTables(f)(Some(Context(directory, tables, [], [])));
            taken <= 1 && (taken == 1 ==> s.refs[f] == 0))
    case Delete(c) => Live(s, c)
    case AddRegion(c, at, added) =>
      && Live(s, c)
      && at <= |s.contexts[c].value.regions|
      && WellFormed(Inserted(s.contexts[c].value.regions, at, added))
      && (forall i :: 0 <= i < |s.contexts[c].value.regions| ==> Separated(added, s.contexts[c].value.regions[i]))
    case Shrink(c, i, newLength) =>
      && RegionOf(s, c, i)
      && newLength < s.contexts[c].value.regions[i].length
      && newLength % PAGE_SIZE == 0
    case Extend(c, i, newLength) =>
      && RegionOf(s, c, i)
      && s.contexts[c].value.regions[i].length <= newLength < WORD
      && LeavesRoom(s.contexts[c].value.regions, i, newLength)
    case RemoveRegion(c, i) => RegionOf(s, c, i)
    case Pin(f) => Free(s, f)
    case Unpin(f) => f < |s.refs| && s.pinned[f] > 0
  }

  function WithRegions(s: State, c: nat, regions: seq<Region>): State
    requires Live(s, c)
  {
    var ctx := s.contexts[c].value;
    State(s.contexts[c := Some(Context(ctx.directory, ctx.tables, ctx.ptes, regions))], s.refs, s.memory, s.pinned)
  }

  /** The loop of MemRegionResize: pages lo to hi - 1 are unmapped in ascending order. */
  ghost function UnmapPages(s: State, c: nat, lo: nat, hi: nat): (r: State)
    requires Shaped(s) && Live(s, c) && hi <= USER_PAGES
    ensures Shaped(r) && Live(r, c) && r.contexts[c].value.regions == s.contexts[c].value.regions
    decreases hi - lo
  {
    if lo >= hi then s
    else
      UnmapKeepsShape(s, c, lo);
      UnmapPages(Unmap(s, c, lo), c, lo + 1, hi)
  }

  lemma UnmapKeepsShape(s: State, c: nat, v: nat)
    requires Shaped(s) && Live(s, c) && v < USER_PAGES
    ensures Shaped(Unmap(s, c, v)) && Live(Unmap(s, c, v), c)
    ensures Unmap(s, c, v).contexts[c].value.regions == s.contexts[c].value.regions
  {
    var ctx := s.contexts[c].value;
    if ctx.ptes[v].Present? {
      var ctx' := Unmap(s, c, v).contexts[c].value;
      forall u | 0 <= u < |ctx'.ptes| && ctx'.ptes[u].Present?
        ensures PteValid(ctx', u, |s.refs|)
      {
        assert ctx.ptes[u] == ctx'.ptes[u] && PteValid(ctx, u, |s.refs|);
      }
    }
  }

  /** MemRegionResize to a smaller length, and the first half of MemRegionDelete. */
  ghost function Shrunk(s: State, c: nat, i: nat, newLength: nat): State
    requires Shaped(s) && RegionOf(s, c, i) && newLength < s.contexts[c].value.regions[i].length
  {
    var regions := s.contexts[c].value.regions;
    var cut := UnmapPages(s, c, (regions[i].start + newLength) / PAGE_SIZE, regions[i].End() / PAGE_SIZE);
    WithRegions(cut, c, Resized(regions, i, newLength))
  }

  ghost function Step(s: State, op: Op): State
    requires Shaped(s) && Enabled(s, op)
  {
    match op
    case Store(c, address, value) =>
      var f := Entry(s, c, address / PAGE_SIZE).frame;
      assert PteValid(s.contexts[c].value, address / PAGE_SIZE, |s.refs|);
      s.(memory := s.memory[f := s.memory[f][address % PAGE_SIZE := value]])
    case Fault(c, address, r, frame, table) =>
      var ctx := s.contexts[c].value;
      var v := address / PAGE_SIZE;
      if ctx.ptes[v].Absent? then DemandZero(s, c, v, ctx.regions[r].flags.writable, frame, table)
      else CopyOnWrite(s, c, v, frame)
    case Init(directory) =>
      var blank := Context(directory, seq(USER_TABLES, _ => None), seq(USER_PAGES, _ => Absent), []);
      State(s.contexts + [Some(blank)], s.refs[directory := 1], s.memory, s.pinned)
    case Clone(c, directory, tables) => Cloned(s, c, directory, tables)
    case Delete(c) => Deleted(s, c)
    case AddRegion(c, at, added) => WithRegions(s, c, Inserted(s.contexts[c].value.regions, at, added))
    case Shrink(c, i, newLength) => Shrunk(s, c, i, newLength)
    case Extend(c, i, newLength) => WithRegions(s, c, Resized(s.contexts[c].value.regions, i, newLength))
    case RemoveRegion(c, i) =>
      var emptied := if s.contexts[c].value.regions[i].length == 0 then s else Shrunk(s, c, i, 0);
      var regions := s.contexts[c].value.regions;
      WithRegions(emptied, c, regions[..i] + regions[i + 1..])
    case Pin(f) => State(s.contexts, s.refs[f := 1], s.memory, s.pinned[f := 1])
    case Unpin(f) => State(s.contexts, s.refs[f := 0], s.memory, s.pinned[f := 0])
  }

  // ---------------------------------------------------------------- eager copying

  /** A context that owns all its pages; pages never touched read as zero. */
  datatype Private = Private(regions: seq<Region>, pages: seq<Page>)

  type Eager = seq<Option<Private>>

  ghost predicate OwnedBy(e: Eager, c: nat) {
    c < |e| && e[c].Some? && |e[c].value.pages| == USER_PAGES
      && forall v :: 0 <= v < USER_PAGES ==> |e[c].value.pages[v]| == PAGE_SIZE
  }

  ghost predicate EagerEnabled(e: Eager, op: Op) {
    match op
    case Store(c, address, _) =>
      && OwnedBy(e, c)
      && address < KERNEL_BASE
      && Covered(e[c].value.regions, address / PAGE_SIZE, true)
    case Clone(c, _, _) => OwnedBy(e, c)
    case Delete(c) => OwnedBy(e, c)
    case AddRegion(c, at, added) => OwnedBy(e, c) && at <= |e[c].value.regions|
    case Shrink(c, i, newLength) =>
      OwnedBy(e, c) && i < |e[c].value.regions| && newLength < e[c].value.regions[i].length
    case Extend(c, i, _) => OwnedBy(e, c) && i < |e[c].value.regions|
    case RemoveRegion(c, i) => OwnedBy(e, c) && i < |e[c].value.regions|
    case _ => true
  }

  /** The pages with those from lo to hi - 1 wiped. */
  function Wiped(pages: seq<Page>, lo: nat, hi: nat): (r: seq<Page>)
    ensures |r| == |pages|
    ensures forall v :: 0 <= v < |pages| && lo <= v < hi ==> Zeros(r[v])
    ensures forall v :: 0 <= v < |pages| && !(lo <= v < hi) ==> r[v] == pages[v]
  {
    var zeros := ZeroPage();
    assert Zeros(zeros);
    seq(|pages|, v requires 0 <= v < |pages| => if lo <= v < hi then zeros else pages[v])
  }

  function BlankPages(): (r: seq<Page>)
    ensures |r| == USER_PAGES
    ensures forall v :: 0 <= v < USER_PAGES ==> Zeros(r[v])
  {
    seq(USER_PAGES, _ => ZeroPage())
  }

  ghost function EagerStep(e: Eager, op: Op): Eager
    requires EagerEnabled(e, op)
  {
    match op
    case Store(c, address, value) =>
      var p := e[c].value;
      var page := p.pages[address / PAGE_SIZE];
      e[c := Some(Private(p.regions, p.pages[address / PAGE_SIZE := page[address % PAGE_SIZE := value]]))]
    case Init(_) => e + [Some(Private([], BlankPages()))]
    case Clone(c, _, _) => e + [e[c]]
    case Delete(c) => e[c := None]
    case AddRegion(c, at, added) =>
      var p := e[c].value;
      e[c := Some(p.(regions := p.regions[..at] + [added] + p.regions[at..]))]
    case Shrink(c, i, newLength) =>
      var p := e[c].value;
      var lo := (p.regions[i].start + newLength) / PAGE_SIZE;
      e[c := Some(Private(p.regions[i := p.regions[i].(length := newLength)],
                          Wiped(p.pages, lo, p.regions[i].End() / PAGE_SIZE)))]
    case Extend(c, i, newLength) =>
      var p := e[c].value;
      if newLength % PAGE_SIZE != 0 || p.regions[i].start + newLength > KERNEL_BASE then e
      else e[c := Some(p.(regions := p.regions[i := p.regions[i].(length := newLength)]))]
    case RemoveRegion(c, i) =>
      var p := e[c].value;
      e[c := Some(Private(p.regions[..i] + p.regions[i + 1..],
                          Wiped(p.pages, p.regions[i].start / PAGE_SIZE, p.regions[i].End() / PAGE_SIZE)))]
    case _ => e
  }

  // ---------------------------------------------------------------- what a context sees

  function Seen(p: Pte, memory: seq<Page>): Page {
    if p.Present? && p.frame < |memory| then memory[p.frame] else ZeroPage()
  }

  function SeenPages(ptes: seq<Pte>, memory: seq<Page>): (r: seq<Page>)
    ensures |r| == |ptes|
    ensures forall v :: 0 <= v < |ptes| ==> r[v] == Seen(ptes[v], memory)
  {
    seq(|ptes|, v requires 0 <= v < |ptes| => Seen(ptes[v], memory))
  }

  function SeenContext(c: Option<Context>, memory: seq<Page>): Option<Private> {
    if c.None? then None else Some(Private(c.value.regions, SeenPages(c.value.ptes, memory)))
  }

  function Abs(s: State): (e: Eager)
    ensures |e| == |s.contexts|
    ensures forall c :: 0 <= c < |s.contexts| ==> e[c] == SeenContext(s.contexts[c], s.memory)
  {
    seq(|s.contexts|, c requires 0 <= c < |s.contexts| => SeenContext(s.contexts[c], s.memory))
  }

  // ---------------------------------------------------------------- counting lemmas

  lemma ReplacedContextCounts(s: State, c: nat, x: Option<Context>, f: nat)
    requires c < |s.contexts|
    ensures Sum(s.contexts[c := x], ContextPtes(f)) + ContextPtes(f)(s.contexts[c])
         == PteRefs(s, f) + ContextPtes(f)(x)
    ensures Sum(s.contexts[c := x], ContextTables(f)) + ContextTables(f)(s.contexts[c])
         == TableRefs(s, f) + ContextTables(f)(x)
  {
    SumUpdate(s.contexts, c, x, ContextPtes(f));
    SumUpdate(s.contexts, c, x, ContextTables(f));
  }

  lemma WithPteCounts(s: State, c: nat, v: nat, p: Pte, f: nat)
    requires Live(s, c) && v < |s.contexts[c].value.ptes|
    ensures PteRefs(WithPte(s, c, v, p), f) + PteNames(f)(Entry(s, c, v)) == PteRefs(s, f) + PteNames(f)(p)
    ensures TableRefs(WithPte(s, c, v, p), f) == TableRefs(s, f)
  {
    var ctx := s.contexts[c].value;
    ReplacedContextCounts(s, c, Some(ctx.(ptes := ctx.ptes[v := p])), f);
    SumUpdate(ctx.ptes, v, p, PteNames(f));
  }

  /** An entry that names a frame is counted. */
  lemma NamedIsCounted(s: State, c: nat, v: nat)
    requires Entry(s, c, v).Present?
    ensures PteRefs(s, Entry(s, c, v).frame) >= ContextPtes(Entry(s, c, v).frame)(s.contexts[c]) >= 1
  {
    var f := Entry(s, c, v).frame;
    SumAtLeast(s.contexts[c].value.ptes, v, PteNames(f));
    SumAtLeast(s.contexts, c, ContextPtes(f));
  }

  /** Two different entries that name one frame are both counted. */
  lemma NamedTwice(s: State, c: nat, v: nat, d: nat, u: nat)
    requires Entry(s, c, v).Present? && Entry(s, d, u).Present? && (c != d || v != u)
    requires Entry(s, c, v).frame == Entry(s, d, u).frame
    ensures PteRefs(s, Entry(s, c, v).frame) >= 2
  {
    var f := Entry(s, c, v).frame;
    if c == d {
      SumAtLeastTwo(s.contexts[c].value.ptes, if v < u then v else u, if v < u then u else v, PteNames(f));
      SumAtLeast(s.contexts, c, ContextPtes(f));
    } else {
      SumAtLeast(s.contexts[c].value.ptes, v, PteNames(f));
      SumAtLeast(s.contexts[d].value.ptes, u, PteNames(f));
      SumAtLeastTwo(s.contexts, if c < d then c else d, if c < d then d else c, ContextPtes(f));
    }
  }

  /** No entry names a free frame. */
  lemma FreeIsUnnamed(s: State, f: nat)
    requires Inv(s) && Free(s, f)
    ensures PteRefs(s, f) == TableRefs(s, f) == s.pinned[f] == 0
    ensures forall c: nat, v: nat :: Entry(s, c, v).Present? ==> Entry(s, c, v).frame != f
  {
    assert CountsAgree(s, f);
    forall c: nat, v: nat | Entry(s, c, v).Present?
      ensures Entry(s, c, v).frame != f
    {
      NamedIsCounted(s, c, v);
    }
  }

  // ---------------------------------------------------------------- every step keeps the invariant

  /** Only the changed entry can lose its exclusive claim, and only to a frame that was already named. */
  lemma WithPteKeepsSole(s: State, c: nat, v: nat, p: Pte, next: State)
    requires WritableSole(s) && Live(s, c) && v < |s.contexts[c].value.ptes|
    requires forall d: nat, u: nat :: Entry(next, d, u) == if d == c && u == v then p else Entry(s, d, u)
    requires forall f: nat :: PteRefs(next, f) == PteRefs(WithPte(s, c, v, p), f)
    requires p.Present? && PteRefs(s, p.frame) != 0 ==>
      Entry(s, c, v).Present? && Entry(s, c, v).frame == p.frame && (p.writable ==> PteRefs(s, p.frame) == 1)
    ensures WritableSole(next)
  {
    forall d: nat, u: nat | Entry(next, d, u).Present? && Entry(next, d, u).writable
      ensures PteRefs(next, Entry(next, d, u).frame) == 1
    {
      var g := Entry(next, d, u).frame;
      WithPteCounts(s, c, v, p, g);
      if d == c && u == v {
        if Entry(s, c, v).Present? {
          NamedIsCounted(s, c, v);
        }
      } else {
        if Entry(s, c, v).Present? && Entry(s, c, v).frame == g {
          NamedTwice(s, c, v, d, u);
        }
      }
    }
  }

  lemma UnmapKeepsInv(s: State, c: nat, v: nat)
    requires Inv(s) && Live(s, c) && v < USER_PAGES
    ensures Inv(Unmap(s, c, v))
  {
    UnmapKeepsShape(s, c, v);
    if Entry(s, c, v).Present? {
      var g := Entry(s, c, v).frame;
      var next := Unmap(s, c, v);
      assert PteValid(s.contexts[c].value, v, |s.refs|);
      forall f: nat
        ensures PteRefs(next, f) == PteRefs(WithPte(s, c, v, Absent), f)
        ensures f < |next.refs| ==> CountsAgree(next, f)
      {
        WithPteCounts(s, c, v, Absent, f);
        NamedIsCounted(s, c, v);
        if f < |s.refs| {
          assert CountsAgree(s, f);
        }
      }
      WithPteKeepsSole(s, c, v, Absent, next);
    }
  }

  lemma {:induction false} UnmapPagesEffect(s: State, c: nat, lo: nat, hi: nat)
    requires Inv(s) && Live(s, c) && hi <= USER_PAGES
    ensures Inv(UnmapPages(s, c, lo, hi))
    ensures forall d: nat, u: nat :: Entry(UnmapPages(s, c, lo, hi), d, u)
                                  == if d == c && lo <= u < hi then Absent else Entry(s, d, u)
    ensures UnmapPages(s, c, lo, hi).memory == s.memory
    decreases hi - lo
  {
    if lo < hi {
      UnmapKeepsInv(s, c, lo);
      UnmapPagesEffect(Unmap(s, c, lo), c, lo + 1, hi);
    }
  }

  /** Changing a context's regions keeps the invariant if its mapped pages stay covered. */
  lemma WithRegionsKeepsInv(s: State, c: nat, regions: seq<Region>)
    requires Inv(s) && Live(s, c) && WellFormed(regions)
    requires forall v: nat :: Entry(s, c, v).Present? ==> Covered(regions, v, Entry(s, c, v).writable)
    ensures Inv(WithRegions(s, c, regions))
  {
    var next := WithRegions(s, c, regions);
    var ctx := next.contexts[c].value;
    forall v | 0 <= v < |ctx.ptes| && ctx.ptes[v].Present?
      ensures PteValid(ctx, v, |next.refs|)
    {
      assert PteValid(s.contexts[c].value, v, |s.refs|) && Entry(s, c, v).Present?;
    }
    forall f: nat
      ensures PteRefs(next, f) == PteRefs(s, f) && TableRefs(next, f) == TableRefs(s, f)
    {
      ReplacedContextCounts(s, c, next.contexts[c], f);
    }
    forall f | 0 <= f < |next.refs|
      ensures CountsAgree(next, f)
    {
      assert CountsAgree(s, f);
    }
    forall d: nat, u: nat | Entry(next, d, u).Present? && Entry(next, d, u).writable
      ensures PteRefs(next, Entry(next, d, u).frame) == 1
    {
      assert Entry(next, d, u) == Entry(s, d, u);
    }
  }

  /** A covered page outside the cut stays covered. */
  lemma ShrinkKeepsCover(regions: seq<Region>, i: nat, newLength: nat, v: nat, writable: bool)
    requires WellFormed(regions) && i < |regions|
    requires newLength < regions[i].length && newLength % PAGE_SIZE == 0
    requires Covered(regions, v, writable)
    requires !((regions[i].start + newLength) / PAGE_SIZE <= v < regions[i].End() / PAGE_SIZE)
    ensures Covered(Resized(regions, i, newLength), v, writable)
  {
    ShrinkSetsLength(regions, i, newLength);
    var after := Resized(regions, i, newLength);
    var k :| 0 <= k < |regions| && regions[k].Contains(v * PAGE_SIZE) && (writable ==> regions[k].flags.writable);
    if k == i {
      assert ValidRange(regions[i].start, regions[i].length);
      PageBelowCut(regions[i], newLength, v);
    }
    assert after[k].Contains(v * PAGE_SIZE);
  }

  lemma PageBelowCut(r: Region, newLength: nat, v: nat)
    requires ValidRange(r.start, r.length) && newLength < r.length && newLength % PAGE_SIZE == 0
    requires r.Contains(v * PAGE_SIZE) && !((r.start + newLength) / PAGE_SIZE <= v < r.End() / PAGE_SIZE)
    ensures v * PAGE_SIZE < r.start + newLength
  {
    PagesBelow(r.start + newLength, r.End(), v);
  }

  lemma ShrinkSetsLength(regions: seq<Region>, i: nat, newLength: nat)
    requires i < |regions| && newLength < regions[i].length && newLength % PAGE_SIZE == 0
    ensures Resized(regions, i, newLength) == regions[i := regions[i].(length := newLength)]
  {
  }

  /** A page outside a range of aligned addresses starts outside it. */
  lemma PagesBelow(lo: nat, hi: nat, v: nat)
    requires lo % PAGE_SIZE == 0 && hi % PAGE_SIZE == 0 && !(lo / PAGE_SIZE <= v < hi / PAGE_SIZE)
    ensures v * PAGE_SIZE < lo || v * PAGE_SIZE >= hi
  {
  }

  /** The pages outside a range that the regions cover, they cover after the change too. */
  ghost predicate StaysCovered(regions: seq<Region>, after: seq<Region>, lo: nat, hi: nat) {
    forall v: nat, w :: Covered(regions, v, w) && !(lo <= v < hi) ==> Covered(after, v, w)
  }

  /** Unmapping the pages that lose their region makes room for the change. */
  lemma UnmapThenWithRegions(s: State, c: nat, lo: nat, hi: nat, after: seq<Region>)
    requires Inv(s) && Live(s, c) && hi <= USER_PAGES && WellFormed(after)
    requires StaysCovered(s.contexts[c].value.regions, after, lo, hi)
    ensures Inv(WithRegions(UnmapPages(s, c, lo, hi), c, after))
  {
    UnmapPagesEffect(s, c, lo, hi);
    var cut := UnmapPages(s, c, lo, hi);
    forall v: nat | Entry(cut, c, v).Present?
      ensures Covered(after, v, Entry(cut, c, v).writable)
    {
      assert Entry(s, c, v) == Entry(cut, c, v);
      assert PteValid(s.contexts[c].value, v, |s.refs|);
    }
    WithRegionsKeepsInv(cut, c, after);
  }

  /** Everything about a shrink that concerns the region list alone. */
  lemma ShrinkRegionFacts(regions: seq<Region>, i: nat, newLength: nat)
    requires WellFormed(regions) && i < |regions|
    requires newLength < regions[i].length && newLength % PAGE_SIZE == 0
    ensures (regions[i].start + newLength) / PAGE_SIZE <= regions[i].End() / PAGE_SIZE <= USER_PAGES
    ensures WellFormed(Resized(regions, i, newLength))
    ensures StaysCovered(regions, Resized(regions, i, newLength),
                         (regions[i].start + newLength) / PAGE_SIZE, regions[i].End() / PAGE_SIZE)
  {
    assert ValidRange(regions[i].start, regions[i].length);
    ShrinkKeepsWellFormed(regions, i, newLength);
    forall v: nat, w |
      && Covered(regions, v, w)
      && !((regions[i].start + newLength) / PAGE_SIZE <= v < regions[i].End() / PAGE_SIZE)
      ensures Covered(Resized(regions, i, newLength), v, w)
    {
      ShrinkKeepsCover(regions, i, newLength, v, w);
    }
  }

  lemma ShrunkIsCut(s: State, c: nat, i: nat, newLength: nat) returns (lo: nat, hi: nat, after: seq<Region>)
    requires Shaped(s) && RegionOf(s, c, i) && WellFormed(s.contexts[c].value.regions)
    requires newLength < s.contexts[c].value.regions[i].length && newLength % PAGE_SIZE == 0
    ensures hi <= USER_PAGES && WellFormed(after) && StaysCovered(s.contexts[c].value.regions, after, lo, hi)
    ensures Shrunk(s, c, i, newLength) == WithRegions(UnmapPages(s, c, lo, hi), c, after)
    ensures var regions := s.contexts[c].value.regions;
            && lo == (regions[i].start + newLength) / PAGE_SIZE && hi == regions[i].End() / PAGE_SIZE
            && after == Resized(regions, i, newLength)
  {
    var regions := s.contexts[c].value.regions;
    ShrinkRegionFacts(regions, i, newLength);
    lo, hi := (regions[i].start + newLength) / PAGE_SIZE, regions[i].End() / PAGE_SIZE;
    after := Resized(regions, i, newLength);
  }

  lemma ShrunkKeepsInv(s: State, c: nat, i: nat, newLength: nat)
    requires Inv(s) && Enabled(s, Shrink(c, i, newLength))
    ensures Inv(Shrunk(s, c, i, newLength))
  {
    var lo, hi, after := ShrunkIsCut(s, c, i, newLength);
    UnmapThenWithRegions(s, c, lo, hi, after);
  }

  lemma ExtendKeepsCover(regions: seq<Region>, i: nat, newLength: nat, v: nat, writable: bool)
    requires i < |regions| && regions[i].length <= newLength && Covered(regions, v, writable)
    ensures Covered(Resized(regions, i, newLength), v, writable)
  {
    var k :| 0 <= k < |regions| && regions[k].Contains(v * PAGE_SIZE) && (writable ==> regions[k].flags.writable);
    assert Resized(regions, i, newLength)[k].Contains(v * PAGE_SIZE);
  }

  lemma ExtendKeepsInv(s: State, c: nat, i: nat, newLength: nat)
    requires Inv(s) && Enabled(s, Extend(c, i, newLength))
    ensures Inv(Step(s, Extend(c, i, newLength)))
  {
    var regions := s.contexts[c].value.regions;
    GrowthKeepsWellFormedIff(regions, i, newLength);
    forall v: nat | Entry(s, c, v).Present?
      ensures Covered(Resized(regions, i, newLength), v, Entry(s, c, v).writable)
    {
      assert PteValid(s.contexts[c].value, v, |s.refs|);
      ExtendKeepsCover(regions, i, newLength, v, Entry(s, c, v).writable);
    }
    WithRegionsKeepsInv(s, c, Resized(regions, i, newLength));
  }

  lemma AddRegionKeepsInv(s: State, c: nat, at: nat, added: Region)
    requires Inv(s) && Enabled(s, AddRegion(c, at, added))
    ensures Inv(Step(s, AddRegion(c, at, added)))
  {
    var regions := s.contexts[c].value.regions;
    var after := Inserted(regions, at, added);
    forall v: nat | Entry(s, c, v).Present?
      ensures Covered(after, v, Entry(s, c, v).writable)
    {
      assert PteValid(s.contexts[c].value, v, |s.refs|);
      var k :| 0 <= k < |regions| && regions[k].Contains(v * PAGE_SIZE)
               && (Entry(s, c, v).writable ==> regions[k].flags.writable);
      assert after[if k < at then k else k + 1] == regions[k];
    }
    WithRegionsKeepsInv(s, c, after);
  }

  /** An empty region covers nothing, so dropping it uncovers nothing. */
  lemma DropEmptyKeepsInv(s: State, c: nat, i: nat)
    requires Inv(s) && RegionOf(s, c, i) && s.contexts[c].value.regions[i].length == 0
    ensures Inv(WithRegions(s, c, s.contexts[c].value.regions[..i] + s.contexts[c].value.regions[i + 1..]))
  {
    var regions := s.contexts[c].value.regions;
    var after := regions[..i] + regions[i + 1..];
    forall v: nat | Entry(s, c, v).Present?
      ensures Covered(after, v, Entry(s, c, v).writable)
    {
      assert PteValid(s.contexts[c].value, v, |s.refs|);
      var k :| 0 <= k < |regions| && regions[k].Contains(v * PAGE_SIZE)
               && (Entry(s, c, v).writable ==> regions[k].flags.writable);
      assert after[if k < i then k else k - 1] == regions[k];
    }
    RemoveKeepsWellFormed(regions, i);
    WithRegionsKeepsInv(s, c, after);
  }

  lemma RemoveRegionKeepsInv(s: State, c: nat, i: nat)
    requires Inv(s) && RegionOf(s, c, i)
    ensures Inv(Step(s, RemoveRegion(c, i)))
  {
    var regions := s.contexts[c].value.regions;
    if regions[i].length == 0 {
      DropEmptyKeepsInv(s, c, i);
    } else {
      ShrunkKeepsInv(s, c, i, 0);
      var emptied := Shrunk(s, c, i, 0);
      var left := emptied.contexts[c].value.regions;
      assert left == regions[i := regions[i].(length := 0)];
      DropEmptyKeepsInv(emptied, c, i);
      assert left[..i] + left[i + 1..] == regions[..i] + regions[i + 1..];
    }
  }

  lemma DemandZeroKeepsInv(s: State, c: nat, v: nat, r: nat, frame: nat, table: nat)
    requires Inv(s) && RegionOf(s, c, r) && v < USER_PAGES && Entry(s, c, v).Absent?
    requires s.contexts[c].value.regions[r].Contains(v * PAGE_SIZE)
    requires Free(s, frame)
    requires s.contexts[c].value.tables[v / TABLE_ENTRIES].None? ==> Free(s, table) && table != frame
    ensures Inv(DemandZero(s, c, v, s.contexts[c].value.regions[r].flags.writable, frame, table))
  {
    var ctx := s.contexts[c].value;
    var writable := ctx.regions[r].flags.writable;
    var p := Present(frame, writable);
    var next := DemandZero(s, c, v, writable, frame, table);
    var after := next.contexts[c].value;
    FreeIsUnnamed(s, frame);
    forall u | 0 <= u < |after.ptes| && after.ptes[u].Present?
      ensures PteValid(after, u, |next.refs|)
    {
      if u != v {
        assert PteValid(ctx, u, |s.refs|);
      } else {
        assert Covered(after.regions, v, writable);
      }
    }
    forall f: nat
      ensures PteRefs(next, f) == PteRefs(WithPte(s, c, v, p), f)
      ensures f < |next.refs| ==> CountsAgree(next, f)
    {
      DemandZeroCounts(s, c, v, p, table, f);
      WithPteCounts(s, c, v, p, f);
      if f < |s.refs| {
        assert CountsAgree(s, f);
      }
    }
    WithPteKeepsSole(s, c, v, p, next);
  }

  /** How mapping a page moves the two counts of a frame. */
  lemma DemandZeroCounts(s: State, c: nat, v: nat, p: Pte, table: nat, f: nat)
    requires Shaped(s) && Live(s, c) && v < USER_PAGES
    ensures Sum(s.contexts[c := Some(Mapped(s.contexts[c].value, v, p, table))], ContextPtes(f))
         == PteRefs(WithPte(s, c, v, p), f)
    ensures Sum(s.contexts[c := Some(Mapped(s.contexts[c].value, v, p, table))], ContextTables(f))
         == TableRefs(s, f) + if s.contexts[c].value.tables[v / TABLE_ENTRIES].None? && table == f then 1 else 0
  {
    var ctx := s.contexts[c].value;
    ReplacedContextCounts(s, c, Some(Mapped(ctx, v, p, table)), f);
    ReplacedContextCounts(s, c, Some(ctx.(ptes := ctx.ptes[v := p])), f);
    SumUpdate(ctx.tables, v / TABLE_ENTRIES, Some(table), TableNames(f));
  }

  lemma CopyOnWriteKeepsInv(s: State, c: nat, v: nat, r: nat, frame: nat)
    requires Inv(s) && RegionOf(s, c, r) && v < USER_PAGES && Entry(s, c, v).Present?
    requires s.contexts[c].value.regions[r].Contains(v * PAGE_SIZE) && s.contexts[c].value.regions[r].flags.writable
    requires s.refs[Entry(s, c, v).frame] > 1 ==> Free(s, frame)
    ensures Inv(CopyOnWrite(s, c, v, frame))
  {
    var ctx := s.contexts[c].value;
    var shared := Entry(s, c, v).frame;
    assert PteValid(ctx, v, |s.refs|) && CountsAgree(s, shared);
    NamedIsCounted(s, c, v);
    var p := Present(if s.refs[shared] > 1 then frame else shared, true);
    var next := CopyOnWrite(s, c, v, frame);
    var after := next.contexts[c].value;
    if s.refs[shared] > 1 {
      FreeIsUnnamed(s, frame);
    }
    forall u | 0 <= u < |after.ptes| && after.ptes[u].Present?
      ensures PteValid(after, u, |next.refs|)
    {
      if u != v {
        assert PteValid(ctx, u, |s.refs|);
      } else {
        assert Covered(after.regions, v, true);
      }
    }
    forall f: nat
      ensures PteRefs(next, f) == PteRefs(WithPte(s, c, v, p), f)
      ensures f < |next.refs| ==> CountsAgree(next, f)
    {
      WithPteCounts(s, c, v, p, f);
      if f < |s.refs| {
        assert CountsAgree(s, f);
      }
    }
    WithPteKeepsSole(s, c, v, p, next);
  }

  lemma ReadOnlyCounts(ctx: Context, f: nat)
    ensures Sum(AllReadOnly(ctx.ptes), PteNames(f)) == ContextPtes(f)(Some(ctx))
  {
    SumSame(AllReadOnly(ctx.ptes), PteNames(f), ctx.ptes, PteNames(f));
  }

  lemma ClonedCounts(s: State, c: nat, directory: nat, tables: seq<Option<nat>>, f: nat)
    requires Live(s, c)
    ensures PteRefs(Cloned(s, c, directory, tables), f) == PteRefs(s, f) + ContextPtes(f)(s.contexts[c])
    ensures TableRefs(Cloned(s, c, directory, tables), f)
         == TableRefs(s, f) + ContextTables(f)(Some(Context(directory, tables, [], [])))
  {
    var next := Cloned(s, c, directory, tables);
    var n := |s.contexts|;
    ReadOnlyCounts(s.contexts[c].value, f);
    ReplacedContextCounts(s, c, next.contexts[c], f);
    SumAppend(next.contexts[..n], next.contexts[n], ContextPtes(f));
    SumAppend(next.contexts[..n], next.contexts[n], ContextTables(f));
    assert next.contexts == next.contexts[..n] + [next.contexts[n]];
    assert next.contexts[..n] == s.contexts[c := next.contexts[c]];
  }

  lemma ClonedKeepsShape(s: State, c: nat, directory: nat, tables: seq<Option<nat>>)
    requires Inv(s) && Enabled(s, Clone(c, directory, tables))
    ensures Shaped(Cloned(s, c, directory, tables))
  {
    var ctx := s.contexts[c].value;
    var next := Cloned(s, c, directory, tables);
    forall d | d == c || d == |s.contexts|
      ensures ContextValid(next.contexts[d].value, |next.refs|)
    {
      var copy := next.contexts[d].value;
      forall v | 0 <= v < |copy.ptes| && copy.ptes[v].Present?
        ensures PteValid(copy, v, |next.refs|)
      {
        assert PteValid(ctx, v, |s.refs|) && Covered(copy.regions, v, false);
      }
    }
  }

  lemma ClonedKeepsInv(s: State, c: nat, directory: nat, tables: seq<Option<nat>>)
    requires Inv(s) && Enabled(s, Clone(c, directory, tables))
    ensures Inv(Cloned(s, c, directory, tables))
  {
    var next := Cloned(s, c, directory, tables);
    ClonedKeepsShape(s, c, directory, tables);
    forall f | 0 <= f < |next.refs|
      ensures CountsAgree(next, f)
    {
      ClonedCounts(s, c, directory, tables, f);
      assert CountsAgree(s, f);
      SumAtLeast(s.contexts, c, ContextPtes(f));
    }
    forall d: nat, u: nat | Entry(next, d, u).Present? && Entry(next, d, u).writable
      ensures PteRefs(next, Entry(next, d, u).frame) == 1
    {
      var g := Entry(next, d, u).frame;
      assert d != c && d < |s.contexts| && Entry(s, d, u) == Entry(next, d, u);
      ClonedCounts(s, c, directory, tables, g);
      NamedIsCounted(s, d, u);
      SumAtLeastTwo(s.contexts, if c < d then c else d, if c < d then d else c, ContextPtes(g));
    }
  }

  lemma DeletedKeepsInv(s: State, c: nat)
    requires Inv(s) && Live(s, c)
    ensures Inv(Deleted(s, c))
  {
    var next := Deleted(s, c);
    forall f: nat
      ensures PteRefs(next, f) == PteRefs(s, f) - ContextPtes(f)(s.contexts[c])
      ensures f < |next.refs| ==> CountsAgree(next, f)
    {
      ReplacedContextCounts(s, c, None, f);
      if f < |s.refs| {
        assert CountsAgree(s, f);
      }
    }
    forall d: nat, u: nat | Entry(next, d, u).Present? && Entry(next, d, u).writable
      ensures PteRefs(next, Entry(next, d, u).frame) == 1
    {
      assert Entry(s, d, u) == Entry(next, d, u);
      NamedIsCounted(next, d, u);
    }
  }

  lemma InitKeepsInv(s: State, directory: nat)
    requires Inv(s) && Free(s, directory)
    ensures Inv(Step(s, Init(directory)))
  {
    var next := Step(s, Init(directory));
    FreeIsUnnamed(s, directory);
    forall f: nat
      ensures PteRefs(next, f) == PteRefs(s, f)
      ensures f < |next.refs| ==> CountsAgree(next, f)
    {
      var blank := next.contexts[|s.contexts|].value;
      SumOfZeros(blank.tables, TableNames(f));
      SumOfZeros(blank.ptes, PteNames(f));
      SumAppend(s.contexts, next.contexts[|s.contexts|], ContextPtes(f));
      SumAppend(s.contexts, next.contexts[|s.contexts|], ContextTables(f));
      if f < |s.refs| {
        assert CountsAgree(s, f);
      }
    }
    forall d: nat, u: nat | Entry(next, d, u).Present? && Entry(next, d, u).writable
      ensures PteRefs(next, Entry(next, d, u).frame) == 1
    {
      assert Entry(s, d, u) == Entry(next, d, u);
    }
  }

  /** Steps that leave the contexts alone keep every count of entries and tables. */
  lemma SameContextsKeepInv(s: State, next: State)
    requires Inv(s) && next.contexts == s.contexts && Shaped(next) && |next.refs| == |s.refs|
    requires forall f :: 0 <= f < |s.refs| ==>
      || (next.refs[f] == s.refs[f] && next.pinned[f] == s.pinned[f])
      || (next.refs[f] == next.pinned[f] && s.refs[f] == s.pinned[f])
    ensures Inv(next)
  {
    forall f | 0 <= f < |next.refs|
      ensures CountsAgree(next, f)
    {
      assert CountsAgree(s, f);
    }
    forall d: nat, u: nat | Entry(next, d, u).Present? && Entry(next, d, u).writable
      ensures PteRefs(next, Entry(next, d, u).frame) == 1
    {
      assert Entry(s, d, u) == Entry(next, d, u);
    }
  }

  lemma StepKeepsInv(s: State, op: Op)
    requires Inv(s) && Enabled(s, op)
    ensures Inv(Step(s, op))
  {
    match op
    case Store(_, _, _) => SameContextsKeepInv(s, Step(s, op));
    case Fault(c, address, r, frame, table) =>
      FaultPageCovered(s, c, address, r);
      if Entry(s, c, address / PAGE_SIZE).Absent? {
        DemandZeroKeepsInv(s, c, address / PAGE_SIZE, r, frame, table);
      } else {
        CopyOnWriteKeepsInv(s, c, address / PAGE_SIZE, r, frame);
      }
    case Init(directory) => InitKeepsInv(s, directory);
    case Clone(c, directory, tables) => ClonedKeepsInv(s, c, directory, tables);
    case Delete(c) => DeletedKeepsInv(s, c);
    case AddRegion(c, at, added) => AddRegionKeepsInv(s, c, at, added);
    case Shrink(c, i, newLength) => ShrunkKeepsInv(s, c, i, newLength);
    case Extend(c, i, newLength) => ExtendKeepsInv(s, c, i, newLength);
    case RemoveRegion(c, i) => RemoveRegionKeepsInv(s, c, i);
    case Pin(f) =>
      assert CountsAgree(s, f);
      SameContextsKeepInv(s, Step(s, op));
    case Unpin(f) =>
      assert CountsAgree(s, f);
      SameContextsKeepInv(s, Step(s, op));
  }

  /** Regions are page aligned, so the page of a contained address is contained. */
  lemma FaultPageCovered(s: State, c: nat, address: nat, r: nat)
    requires Shaped(s) && RegionOf(s, c, r) && s.contexts[c].value.regions[r].Contains(address)
    ensures s.contexts[c].value.regions[r].Contains(address / PAGE_SIZE * PAGE_SIZE)
    ensures address / PAGE_SIZE < USER_PAGES
  {
    var region := s.contexts[c].value.regions[r];
    assert ValidRange(region.start, region.length);
  }

  // ---------------------------------------------------------------- every step refines eager copying

  /** What context `d` sees in state `s` is exactly `p`. */
  ghost predicate Shows(s: State, d: nat, p: Option<Private>)
    requires d < |s.contexts|
  {
    match s.contexts[d]
    case None => p.None?
    case Some(ctx) =>
      && p.Some?
      && p.value.regions == ctx.regions
      && |p.value.pages| == |ctx.ptes|
      && forall u :: 0 <= u < |ctx.ptes| ==> p.value.pages[u] == Seen(Entry(s, d, u), s.memory)
  }

  lemma ShowsIsAbs(s: State, e: Eager)
    requires |e| == |s.contexts|
    requires forall d :: 0 <= d < |e| ==> Shows(s, d, e[d])
    ensures Abs(s) == e
  {
    forall d | 0 <= d < |e|
      ensures Abs(s)[d] == e[d]
    {
      assert Shows(s, d, e[d]);
      if s.contexts[d].Some? {
        var pages := SeenPages(s.contexts[d].value.ptes, s.memory);
        forall u | 0 <= u < |pages|
          ensures pages[u] == e[d].value.pages[u]
        {
          assert Entry(s, d, u) == s.contexts[d].value.ptes[u];
        }
        assert pages == e[d].value.pages;
      }
    }
  }

  lemma AbsShows(s: State, d: nat)
    requires d < |s.contexts|
    ensures Shows(s, d, Abs(s)[d])
  {
  }

  lemma AbsOwned(s: State, c: nat)
    requires Shaped(s) && Live(s, c)
    ensures OwnedBy(Abs(s), c)
  {
    var ctx := s.contexts[c].value;
    forall v | 0 <= v < USER_PAGES
      ensures |Seen(ctx.ptes[v], s.memory)| == PAGE_SIZE
    {
      if ctx.ptes[v].Present? {
        assert PteValid(ctx, v, |s.refs|);
      }
    }
  }

  lemma EagerFollows(s: State, op: Op)
    requires Inv(s) && Enabled(s, op)
    ensures EagerEnabled(Abs(s), op)
  {
    match op
    case Store(c, address, _) =>
      AbsOwned(s, c);
      assert PteValid(s.contexts[c].value, address / PAGE_SIZE, |s.refs|);
    case Clone(c, _, _) => AbsOwned(s, c);
    case Delete(c) => AbsOwned(s, c);
    case AddRegion(c, _, _) => AbsOwned(s, c);
    case Shrink(c, _, _) => AbsOwned(s, c);
    case Extend(c, _, _) => AbsOwned(s, c);
    case RemoveRegion(c, _) => AbsOwned(s, c);
    case _ =>
  }

  /** A store is seen by the one context that made it. */
  lemma StoreRefines(s: State, c: nat, address: nat, value: bv8)
    requires Inv(s) && Enabled(s, Store(c, address, value)) && EagerEnabled(Abs(s), Store(c, address, value))
    ensures Abs(Step(s, Store(c, address, value))) == EagerStep(Abs(s), Store(c, address, value))
  {
    var op := Store(c, address, value);
    var next, e := Step(s, op), EagerStep(Abs(s), op);
    var v := address / PAGE_SIZE;
    assert PteValid(s.contexts[c].value, v, |s.refs|);
    forall d | 0 <= d < |e|
      ensures Shows(next, d, e[d])
    {
      AbsShows(s, d);
      if Live(s, d) {
        forall u | 0 <= u < |s.contexts[d].value.ptes|
          ensures e[d].value.pages[u] == Seen(Entry(next, d, u), next.memory)
        {
          assert Entry(next, d, u) == Entry(s, d, u);
          if (d != c || u != v) && Entry(s, d, u).Present? && Entry(s, d, u).frame == Entry(s, c, v).frame {
            NamedTwice(s, c, v, d, u);
          }
        }
      }
    }
    ShowsIsAbs(next, e);
  }

  /** A change to an unnamed frame and to one entry, showing the same page as before, is invisible. */
  lemma HiddenChange(s: State, next: State, c: nat, v: nat, frame: nat)
    requires Shaped(s) && Live(s, c) && v < USER_PAGES
    requires |next.contexts| == |s.contexts| && |next.memory| == |s.memory|
    requires forall d :: 0 <= d < |s.contexts| && d != c ==> next.contexts[d] == s.contexts[d]
    requires Live(next, c) && next.contexts[c].value.regions == s.contexts[c].value.regions
    requires |next.contexts[c].value.ptes| == USER_PAGES
    requires forall u: nat :: u != v ==> Entry(next, c, u) == Entry(s, c, u)
    requires forall f :: 0 <= f < |s.memory| && f != frame ==> next.memory[f] == s.memory[f]
    requires forall d: nat, u: nat :: Entry(s, d, u).Present? ==> Entry(s, d, u).frame != frame
    requires Seen(Entry(next, c, v), next.memory) == Seen(Entry(s, c, v), s.memory)
    ensures Abs(next) == Abs(s)
  {
    forall d | 0 <= d < |s.contexts|
      ensures Shows(next, d, Abs(s)[d])
    {
      AbsShows(s, d);
      if Live(s, d) {
        forall u | 0 <= u < |s.contexts[d].value.ptes|
          ensures Seen(Entry(next, d, u), next.memory) == Seen(Entry(s, d, u), s.memory)
        {
          assert d != c || u != v ==> Entry(next, d, u) == Entry(s, d, u);
        }
      }
    }
    ShowsIsAbs(next, Abs(s));
  }

  /** No page fault changes what any context sees. */
  lemma FaultIsInvisible(s: State, c: nat, address: nat, r: nat, frame: nat, table: nat)
    requires Inv(s) && Enabled(s, Fault(c, address, r, frame, table))
    ensures Abs(Step(s, Fault(c, address, r, frame, table))) == Abs(s)
  {
    var v := address / PAGE_SIZE;
    var next := Step(s, Fault(c, address, r, frame, table));
    FaultPageCovered(s, c, address, r);
    if Entry(s, c, v).Absent? {
      FreeIsUnnamed(s, frame);
      HiddenChange(s, next, c, v, frame);
    } else {
      assert PteValid(s.contexts[c].value, v, |s.refs|);
      if s.refs[Entry(s, c, v).frame] > 1 {
        FreeIsUnnamed(s, frame);
        HiddenChange(s, next, c, v, frame);
      } else {
        assert forall d: nat, u: nat :: Entry(s, d, u).Present? ==> PteValid(s.contexts[d].value, u, |s.refs|);
        HiddenChange(s, next, c, v, |s.refs|);
      }
    }
  }

  lemma CloneRefines(s: State, c: nat, directory: nat, tables: seq<Option<nat>>)
    requires Inv(s) && Enabled(s, Clone(c, directory, tables))
    requires EagerEnabled(Abs(s), Clone(c, directory, tables))
    ensures Abs(Step(s, Clone(c, directory, tables))) == EagerStep(Abs(s), Clone(c, directory, tables))
  {
    var op := Clone(c, directory, tables);
    var next, e := Step(s, op), EagerStep(Abs(s), op);
    forall d | 0 <= d < |e|
      ensures Shows(next, d, e[d])
    {
      var from := if d == |s.contexts| then c else d;
      AbsShows(s, from);
      if Live(s, from) {
        forall u | 0 <= u < |next.contexts[d].value.ptes|
          ensures Seen(Entry(next, d, u), next.memory) == Seen(Entry(s, from, u), s.memory)
        {
        }
      }
    }
    ShowsIsAbs(next, e);
  }

  /** Cutting pages off wipes exactly those pages of that context. */
  lemma CutRefines(s: State, c: nat, lo: nat, hi: nat, regions: seq<Region>)
    requires Inv(s) && Live(s, c) && hi <= USER_PAGES
    ensures Abs(WithRegions(UnmapPages(s, c, lo, hi), c, regions))
         == Abs(s)[c := Some(Private(regions, Wiped(Abs(s)[c].value.pages, lo, hi)))]
  {
    var cut := UnmapPages(s, c, lo, hi);
    var next := WithRegions(cut, c, regions);
    var e := Abs(s)[c := Some(Private(regions, Wiped(Abs(s)[c].value.pages, lo, hi)))];
    UnmapPagesEffect(s, c, lo, hi);
    UnmapPagesContexts(s, c, lo, hi);
    forall d | 0 <= d < |e|
      ensures Shows(next, d, e[d])
    {
      AbsShows(s, d);
      if Live(s, d) {
        forall u | 0 <= u < |s.contexts[d].value.ptes|
          ensures Seen(Entry(next, d, u), next.memory) == Seen(Entry(cut, d, u), s.memory)
        {
          assert Entry(next, d, u) == Entry(cut, d, u);
        }
      }
    }
    ShowsIsAbs(next, e);
  }

  lemma {:induction false} UnmapPagesContexts(s: State, c: nat, lo: nat, hi: nat)
    requires Inv(s) && Live(s, c) && hi <= USER_PAGES
    ensures |UnmapPages(s, c, lo, hi).contexts| == |s.contexts|
    ensures forall d :: 0 <= d < |s.contexts| && d != c ==> UnmapPages(s, c, lo, hi).contexts[d] == s.contexts[d]
    decreases hi - lo
  {
    if lo < hi {
      UnmapKeepsInv(s, c, lo);
      UnmapPagesContexts(Unmap(s, c, lo), c, lo + 1, hi);
    }
  }

  lemma ShrunkShows(s: State, c: nat, i: nat, newLength: nat)
    requires Inv(s) && RegionOf(s, c, i)
    requires newLength < s.contexts[c].value.regions[i].length && newLength % PAGE_SIZE == 0
    ensures var regions := s.contexts[c].value.regions;
            Abs(Shrunk(s, c, i, newLength)) == Abs(s)[c := Some(Private(
              Resized(regions, i, newLength),
              Wiped(Abs(s)[c].value.pages, (regions[i].start + newLength) / PAGE_SIZE, regions[i].End() / PAGE_SIZE)))]
  {
    var lo, hi, after := ShrunkIsCut(s, c, i, newLength);
    CutRefines(s, c, lo, hi, after);
  }

  lemma ShrinkRefines(s: State, c: nat, i: nat, newLength: nat)
    requires Inv(s) && Enabled(s, Shrink(c, i, newLength)) && EagerEnabled(Abs(s), Shrink(c, i, newLength))
    ensures Abs(Step(s, Shrink(c, i, newLength))) == EagerStep(Abs(s), Shrink(c, i, newLength))
  {
    ShrunkShows(s, c, i, newLength);
    ShrinkSetsLength(s.contexts[c].value.regions, i, newLength);
  }

  lemma ExtendRefines(s: State, c: nat, i: nat, newLength: nat)
    requires Inv(s) && Enabled(s, Extend(c, i, newLength)) && EagerEnabled(Abs(s), Extend(c, i, newLength))
    ensures Abs(Step(s, Extend(c, i, newLength))) == EagerStep(Abs(s), Extend(c, i, newLength))
  {
    GrowthSetsLength(s.contexts[c].value.regions, i, newLength);
  }

  lemma AddRegionRefines(s: State, c: nat, at: nat, added: Region)
    requires Inv(s) && Enabled(s, AddRegion(c, at, added)) && EagerEnabled(Abs(s), AddRegion(c, at, added))
    ensures Abs(Step(s, AddRegion(c, at, added))) == EagerStep(Abs(s), AddRegion(c, at, added))
  {
  }

  lemma DeleteRefines(s: State, c: nat)
    requires Inv(s) && Live(s, c)
    ensures Abs(Deleted(s, c)) == Abs(s)[c := None]
  {
  }

  // ---------------------------------------------------------------- zero

  /** The byte a context reads at an address. */
  ghost function ByteAt(s: State, c: nat, address: nat): bv8
    requires Shaped(s) && Live(s, c) && address < KERNEL_BASE
  {
    AbsOwned(s, c);
    Abs(s)[c].value.pages[address / PAGE_SIZE][address % PAGE_SIZE]
  }

  /** A fault on a page that is not mapped maps a frame of zeros, with the rights of the region. */
  lemma FaultFillsWithZeros(s: State, c: nat, address: nat, r: nat, frame: nat, table: nat, i: nat)
    requires Inv(s) && Enabled(s, Fault(c, address, r, frame, table))
    requires Entry(s, c, address / PAGE_SIZE).Absent? && i < PAGE_SIZE
    ensures
      var next := Step(s, Fault(c, address, r, frame, table));
      && Entry(next, c, address / PAGE_SIZE) == Present(frame, s.contexts[c].value.regions[r].flags.writable)
      && frame < |next.memory| && |next.memory[frame]| == PAGE_SIZE && next.memory[frame][i] == 0
  {
  }

  /** What was stored is read back, and every other address of every context reads as before. */
  lemma StoreIsRead(s: State, c: nat, address: nat, value: bv8, d: nat, other: nat)
    requires Inv(s) && Enabled(s, Store(c, address, value)) && Live(s, d) && other < KERNEL_BASE
    ensures
      var next := Step(s, Store(c, address, value));
      && Shaped(next) && Live(next, d)
      && ByteAt(next, d, other) == if d == c && other == address then value else ByteAt(s, d, other)
  {
    StepKeepsInv(s, Store(c, address, value));
    StepRefines(s, Store(c, address, value));
    AbsOwned(s, c);
    AbsOwned(s, d);
    SameAddress(address, other);
  }

  lemma SameAddress(a: nat, b: nat)
    ensures a / PAGE_SIZE == b / PAGE_SIZE && a % PAGE_SIZE == b % PAGE_SIZE ==> a == b
  {
  }

  /** A clone reads what its parent reads, and no other context reads anything else than before. */
  lemma CloneReadsParent(s: State, c: nat, directory: nat, tables: seq<Option<nat>>, d: nat, address: nat)
    requires Inv(s) && Enabled(s, Clone(c, directory, tables)) && Live(s, d) && address < KERNEL_BASE
    ensures
      var next := Step(s, Clone(c, directory, tables));
      && Shaped(next) && Live(next, |s.contexts|) && Live(next, d)
      && ByteAt(next, |s.contexts|, address) == ByteAt(s, c, address)
      && ByteAt(next, d, address) == ByteAt(s, d, address)
  {
    StepKeepsInv(s, Clone(c, directory, tables));
    StepRefines(s, Clone(c, directory, tables));
    AbsOwned(s, c);
    AbsOwned(s, d);
  }

  /** A new context reads 0 everywhere. */
  lemma NewContextReadsZero(s: State, directory: nat, address: nat)
    requires Inv(s) && Enabled(s, Init(directory)) && address < KERNEL_BASE
    ensures
      var next := Step(s, Init(directory));
      Shaped(next) && Live(next, |s.contexts|) && ByteAt(next, |s.contexts|, address) == 0
  {
    StepKeepsInv(s, Init(directory));
    InitRefines(s, directory);
  }

  /** Whatever is not mapped reads 0. */
  lemma UnmappedReadsZero(s: State, c: nat, address: nat)
    requires Inv(s) && Live(s, c) && address < KERNEL_BASE && Entry(s, c, address / PAGE_SIZE).Absent?
    ensures ByteAt(s, c, address) == 0
  {
  }

  /** What a shrinking region gives up reads 0. */
  lemma CutReadsZero(s: State, c: nat, i: nat, newLength: nat, address: nat)
    requires Inv(s) && Enabled(s, Shrink(c, i, newLength)) && address < KERNEL_BASE
    requires
      var region := s.contexts[c].value.regions[i];
      region.start + newLength <= address < region.End()
    ensures
      var next := Step(s, Shrink(c, i, newLength));
      Shaped(next) && Live(next, c) && ByteAt(next, c, address) == 0
  {
    StepKeepsInv(s, Shrink(c, i, newLength));
    assert ValidRange(s.contexts[c].value.regions[i].start, s.contexts[c].value.regions[i].length);
    PageOfCut(s.contexts[c].value.regions[i], newLength, address);
    CutIsUnmapped(s, c, i, newLength, address / PAGE_SIZE);
    UnmappedReadsZero(Step(s, Shrink(c, i, newLength)), c, address);
  }

  lemma CutIsUnmapped(s: State, c: nat, i: nat, newLength: nat, v: nat)
    requires Inv(s) && Enabled(s, Shrink(c, i, newLength))
    requires
      var region := s.contexts[c].value.regions[i];
      (region.start + newLength) / PAGE_SIZE <= v < region.End() / PAGE_SIZE
    ensures Live(Shrunk(s, c, i, newLength), c) && Entry(Shrunk(s, c, i, newLength), c, v).Absent?
  {
    var lo, hi, after := ShrunkIsCut(s, c, i, newLength);
    UnmapPagesEffect(s, c, lo, hi);
    assert Entry(UnmapPages(s, c, lo, hi), c, v).Absent?;
  }

  lemma PageOfCut(region: Region, newLength: nat, address: nat)
    requires region.start + newLength <= address < region.End() && (region.start + newLength) % PAGE_SIZE == 0
    requires region.End() % PAGE_SIZE == 0
    ensures (region.start + newLength) / PAGE_SIZE <= address / PAGE_SIZE < region.End() / PAGE_SIZE
  {
  }

  /** What a removed region held reads 0. */
  lemma RemovedReadsZero(s: State, c: nat, i: nat, address: nat)
    requires Inv(s) && Enabled(s, RemoveRegion(c, i)) && s.contexts[c].value.regions[i].Contains(address)
    requires address < KERNEL_BASE
    ensures
      var next := Step(s, RemoveRegion(c, i));
      Shaped(next) && Live(next, c) && ByteAt(next, c, address) == 0
  {
    StepKeepsInv(s, RemoveRegion(c, i));
    AbsOwned(s, c);
    RemoveRegionRefines(s, c, i);
    assert ValidRange(s.contexts[c].value.regions[i].start, s.contexts[c].value.regions[i].length);
    PageOfCut(s.contexts[c].value.regions[i], 0, address);
  }

  lemma StepRefines(s: State, op: Op)
    requires Inv(s) && Enabled(s, op)
    ensures EagerEnabled(Abs(s), op)
    ensures Abs(Step(s, op)) == EagerStep(Abs(s), op)
  {
    EagerFollows(s, op);
    match op
    case Store(c, address, value) => StoreRefines(s, c, address, value);
    case Fault(c, address, r, frame, table) => FaultIsInvisible(s, c, address, r, frame, table);
    case Init(directory) => InitRefines(s, directory);
    case Clone(c, directory, tables) => CloneRefines(s, c, directory, tables);
    case Delete(c) => DeleteRefines(s, c);
    case AddRegion(c, at, added) => AddRegionRefines(s, c, at, added);
    case Shrink(c, i, newLength) => ShrinkRefines(s, c, i, newLength);
    case Extend(c, i, newLength) => ExtendRefines(s, c, i, newLength);
    case RemoveRegion(c, i) => RemoveRegionRefines(s, c, i);
    case Pin(f) =>
    case Unpin(f) =>
  }

  lemma InitRefines(s: State, directory: nat)
    requires Inv(s) && Free(s, directory)
    ensures Abs(Step(s, Init(directory))) == EagerStep(Abs(s), Init(directory))
  {
    var next, e := Step(s, Init(directory)), EagerStep(Abs(s), Init(directory));
    forall d | 0 <= d < |e|
      ensures Shows(next, d, e[d])
    {
      if d < |s.contexts| {
        AbsShows(s, d);
        assert forall u: nat :: Entry(next, d, u) == Entry(s, d, u);
      }
    }
    ShowsIsAbs(next, e);
  }

  lemma RemoveRegionRefines(s: State, c: nat, i: nat)
    requires Inv(s) && RegionOf(s, c, i) && EagerEnabled(Abs(s), RemoveRegion(c, i))
    ensures Abs(Step(s, RemoveRegion(c, i))) == EagerStep(Abs(s), RemoveRegion(c, i))
  {
    var regions := s.contexts[c].value.regions;
    var region := regions[i];
    var lo, hi := region.start / PAGE_SIZE, region.End() / PAGE_SIZE;
    var left := regions[..i] + regions[i + 1..];
    assert ValidRange(region.start, region.length);
    CutRefines(s, c, lo, hi, left);
    if region.length == 0 {
      assert UnmapPages(s, c, lo, hi) == s;
    } else {
      var cut := UnmapPages(s, c, lo, hi);
      assert WithRegions(Shrunk(s, c, i, 0), c, left) == WithRegions(cut, c, left);
    }
  }

  // ---------------------------------------------------------------- whole runs

  /** A run whose every step is enabled when it is taken. */
  ghost predicate Legal(s: State, ops: seq<Op>)
    requires Inv(s)
    decreases |ops|
  {
    ops == [] || (Enabled(s, ops[0]) && (StepKeepsInv(s, ops[0]); Legal(Step(s, ops[0]), ops[1..])))
  }

  ghost function Run(s: State, ops: seq<Op>): State
    requires Inv(s) && Legal(s, ops)
    decreases |ops|
  {
    if ops == [] then s else StepKeepsInv(s, ops[0]); Run(Step(s, ops[0]), ops[1..])
  }

  ghost predicate EagerLegal(e: Eager, ops: seq<Op>)
    decreases |ops|
  {
    ops == [] || (EagerEnabled(e, ops[0]) && EagerLegal(EagerStep(e, ops[0]), ops[1..]))
  }

  ghost function EagerRun(e: Eager, ops: seq<Op>): Eager
    requires EagerLegal(e, ops)
    decreases |ops|
  {
    if ops == [] then e else EagerRun(EagerStep(e, ops[0]), ops[1..])
  }

  /**
   Copy on write cannot be told from eager copying: after any run every context sees the memory it
   would see had each clone copied every page, and the counts still agree.
   */
  lemma {:induction false} RunRefinesEagerCopying(s: State, ops: seq<Op>)
    requires Inv(s) && Legal(s, ops)
    ensures Inv(Run(s, ops))
    ensures EagerLegal(Abs(s), ops)
    ensures Abs(Run(s, ops)) == EagerRun(Abs(s), ops)
    decreases |ops|
  {
    if ops != [] {
      StepKeepsInv(s, ops[0]);
      StepRefines(s, ops[0]);
      RunRefinesEagerCopying(Step(s, ops[0]), ops[1..]);
    }
  }

  /** The state after boot: no user context, and only the kernel's own references. */
  lemma BootHolds(memory: seq<Page>, pinned: seq<nat>)
    requires |memory| == |pinned| && forall f :: 0 <= f < |memory| ==> |memory[f]| == PAGE_SIZE
    ensures Inv(State([], pinned, memory, pinned))
  {
  }

  /** A frame some entry names is counted exactly by the entries naming it; a writable entry is alone. */
  lemma ReferenceCountsExact(s: State, c: nat, v: nat)
    requires Inv(s) && Entry(s, c, v).Present?
    ensures Entry(s, c, v).frame < |s.refs|
    ensures s.refs[Entry(s, c, v).frame] == PteRefs(s, Entry(s, c, v).frame) >= 1
    ensures Entry(s, c, v).writable ==> s.refs[Entry(s, c, v).frame] == 1
  {
    assert PteValid(s.contexts[c].value, v, |s.refs|);
    assert CountsAgree(s, Entry(s, c, v).frame);
    NamedIsCounted(s, c, v);
  }

  /** Once no context is left, the frames are back to the kernel's own references: none leaked, none lost. */
  lemma TeardownReturnsEveryFrame(s: State)
    requires Inv(s) && forall c :: 0 <= c < |s.contexts| ==> s.contexts[c].None?
    ensures s.refs == s.pinned
  {
    forall f | 0 <= f < |s.refs|
      ensures s.refs[f] == s.pinned[f]
    {
      assert CountsAgree(s, f);
      SumOfZeros(s.contexts, ContextPtes(f));
      SumOfZeros(s.contexts, ContextTables(f));
    }
  }

  /** A store into a region goes through after at most one fault if the region is writable, and never otherwise. */
  lemma StoreNeedsAtMostOneFault(s: State, c: nat, address: nat, r: nat, frame: nat, table: nat, value: bv8)
    requires Inv(s) && RegionOf(s, c, r) && s.contexts[c].value.regions[r].Contains(address)
    requires Free(s, frame) && Free(s, table) && frame != table
    ensures var fault := Fault(c, address, r, frame, table);
            s.contexts[c].value.regions[r].flags.writable <==>
              || Enabled(s, Store(c, address, value))
              || (&& Enabled(s, fault)
                  && Shaped(Step(s, fault))
                  && Enabled(Step(s, fault), Store(c, address, value)))
  {
    var v := address / PAGE_SIZE;
    var ctx := s.contexts[c].value;
    var fault := Fault(c, address, r, frame, table);
    FaultPageCovered(s, c, address, r);
    if Enabled(s, fault) {
      StepKeepsInv(s, fault);
      assert Entry(Step(s, fault), c, v).writable == ctx.regions[r].flags.writable;
    }
    if Entry(s, c, v).Present? && Entry(s, c, v).writable {
      WritableMeansRegion(s, c, v, r);
    }
  }

  /** Any address of an accessible region can be read at once or after one fault, and after a fault it can. */
  lemma ReadNeedsAtMostOneFault(s: State, c: nat, address: nat, r: nat, frame: nat, table: nat)
    requires Inv(s) && RegionOf(s, c, r) && s.contexts[c].value.regions[r].Contains(address)
    requires s.contexts[c].value.regions[r].flags.Accessible()
    requires Free(s, frame) && Free(s, table) && frame != table
    ensures var fault := Fault(c, address, r, frame, table);
            && (Entry(s, c, address / PAGE_SIZE).Present? || Enabled(s, fault))
            && (Enabled(s, fault) ==>
                  Shaped(Step(s, fault)) && Entry(Step(s, fault), c, address / PAGE_SIZE).Present?)
  {
    FaultPageCovered(s, c, address, r);
    if Enabled(s, Fault(c, address, r, frame, table)) {
      StepKeepsInv(s, Fault(c, address, r, frame, table));
    }
  }

  lemma WritableMeansRegion(s: State, c: nat, v: nat, r: nat)
    requires Inv(s) && RegionOf(s, c, r) && Entry(s, c, v).Present? && Entry(s, c, v).writable
    requires s.contexts[c].value.regions[r].Contains(v * PAGE_SIZE)
    ensures s.contexts[c].value.regions[r].flags.writable
  {
    var regions := s.contexts[c].value.regions;
    assert PteValid(s.contexts[c].value, v, |s.refs|);
    var k :| 0 <= k < |regions| && regions[k].Contains(v * PAGE_SIZE) && regions[k].flags.writable;
    assert k == r;
  }
}
