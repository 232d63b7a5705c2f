/**
 The kernel's virtual range allocator: kernel/src/mm/vmalloc.c with MemMapPage and MemUnmapPage of
 kernel/src/mm/pageMapping.c.

 Two bits per page encode the reserved blocks: whether the page is allocated, and whether it is the
 first page of its block.
 */
module VirtualMemory {
  import opened Common
  import Physical

  const VIRT_PAGES := 0xFFFC
  const VIRT_BASE := 0xF000_0000

  datatype VirtualPage = VirtualPage(inUse: bool, firstPage: bool)

  /** The pages a request is rounded up to, in 32-bit arithmetic. */
  function PagesFor(bytes: nat): nat {
    Add32(bytes, PAGE_SIZE - 1) / PAGE_SIZE
  }

  /** The same without wrap-around: the iterations of MemVirtualAlloc's loop. */
  function PagesNeeded(bytes: nat): nat {
    (bytes + PAGE_SIZE - 1) / PAGE_SIZE
  }

  /** The pages hold the bytes and one page less does not; the sum wraps for the last page of sizes only. */
  lemma PagesHoldBytes(bytes: nat)
    requires bytes < WORD
    ensures PagesFor(bytes) == 0 <==> bytes == 0 || bytes > WORD - PAGE_SIZE
    ensures 0 < bytes <= WORD - PAGE_SIZE ==> (PagesFor(bytes) - 1) * PAGE_SIZE < bytes <= PagesFor(bytes) * PAGE_SIZE
  {
  }

  lemma MorePages(done: nat, bytes: nat)
    requires done * PAGE_SIZE < bytes
    ensures done < PagesNeeded(bytes)
    ensures done < 0x8_0000 ==> Add32(done * PAGE_SIZE, PAGE_SIZE) == (done + 1) * PAGE_SIZE
  {
  }

  lemma NoMorePages(done: nat, bytes: nat)
    requires bytes <= done * PAGE_SIZE && done <= PagesNeeded(bytes)
    ensures done == PagesNeeded(bytes)
  {
  }

  /** Block `b` of the map covers page `i`. */
  predicate Covers(blocks: map<nat, nat>, b: nat, i: nat) {
    b in blocks && b <= i < b + blocks[b]
  }

  /** The blocks are non-empty, inside the area and apart from one another. */
  ghost predicate Disjoint(blocks: map<nat, nat>, pages: nat) {
    && (forall b :: b in blocks ==> blocks[b] > 0 && b + blocks[b] <= pages)
    && (forall b, c :: b in blocks && c in blocks && b < c ==> b + blocks[b] <= c)
  }

  /** The bits encode the blocks. */
  ghost predicate Encodes(data: seq<VirtualPage>, blocks: map<nat, nat>) {
    && Disjoint(blocks, |data|)
    && (forall i :: 0 <= i < |data| ==> (data[i].firstPage <==> i in blocks))
    && (forall i :: 0 <= i < |data| ==> (data[i].inUse <==> exists b :: Covers(blocks, b, i)))
  }

  ghost predicate RunFree(data: seq<VirtualPage>, first: nat, pages: nat) {
    first + pages <= |data| && forall i :: first <= i < first + pages ==> !data[i].inUse
  }

  /** Where no run is free, no longer one is. */
  lemma NoLongerRun(data: seq<VirtualPage>, pages: nat)
    requires forall j: nat :: !RunFree(data, j, pages)
    ensures forall j: nat, n: nat :: n >= pages ==> !RunFree(data, j, n)
  {
    forall j: nat, n: nat | n >= pages && RunFree(data, j, n)
      ensures RunFree(data, j, pages)
    {
    }
  }

  /** No free run of pages holds the bytes. */
  ghost predicate NoRoom(data: seq<VirtualPage>, bytes: nat) {
    forall j: nat, n: nat :: bytes <= n * PAGE_SIZE ==> !RunFree(data, j, n)
  }

  /** The lowest free run of the given length. */
  ghost predicate FirstFit(data: seq<VirtualPage>, first: nat, pages: nat) {
    RunFree(data, first, pages) && forall j: nat :: j < first ==> !RunFree(data, j, pages)
  }

  /** The bits after a run has been marked. */
  function Marked(data: seq<VirtualPage>, first: nat, pages: nat): (r: seq<VirtualPage>)
    ensures |r| == |data|
  {
    seq(|data|, i requires 0 <= i < |data| =>
      if i == first then VirtualPage(true, true)
      else if first < i < first + pages then VirtualPage(true, data[i].firstPage)
      else data[i])
  }

  /** The bits after a block has been cleared. */
  function Cleared(data: seq<VirtualPage>, first: nat, pages: nat): (r: seq<VirtualPage>)
    ensures |r| == |data|
  {
    seq(|data|, i requires 0 <= i < |data| =>
      if i == first then VirtualPage(false, false)
      else if first < i < first + pages then VirtualPage(false, data[i].firstPage)
      else data[i])
  }

  /** Marking a free run adds exactly that block. */
  lemma MarkedEncodes(data: seq<VirtualPage>, blocks: map<nat, nat>, first: nat, pages: nat)
    requires Encodes(data, blocks) && RunFree(data, first, pages) && pages > 0
    ensures Encodes(Marked(data, first, pages), blocks[first := pages])
    ensures first !in blocks
  {
    var after, more := Marked(data, first, pages), blocks[first := pages];
    assert forall b, i :: first <= i < first + pages && Covers(blocks, b, i) ==> data[i].inUse;
    forall b | b in blocks
      ensures b + blocks[b] <= first || first + pages <= b
    {
      assert Covers(blocks, b, first) <==> b <= first < b + blocks[b];
      assert Covers(blocks, b, b);
    }
    forall i | 0 <= i < |after|
      ensures after[i].inUse <==> exists b :: Covers(more, b, i)
    {
      if first <= i < first + pages {
        assert Covers(more, first, i);
      } else if data[i].inUse {
        var b :| Covers(blocks, b, i);
        assert Covers(more, b, i);
      } else if b :| Covers(more, b, i) {
        assert Covers(blocks, b, i);
      }
    }
    assert forall i :: 0 <= i < |after| ==> (after[i].firstPage <==> i in more) by {
      forall i: nat | first < i < first + pages
        ensures !data[i].firstPage
      {
        assert Covers(blocks, i, i) <==> i in blocks;
      }
    }
  }

  /** Clearing a block removes exactly it. */
  lemma ClearedEncodes(data: seq<VirtualPage>, blocks: map<nat, nat>, first: nat)
    requires Encodes(data, blocks) && first in blocks
    ensures Encodes(Cleared(data, first, blocks[first]), blocks - {first})
  {
    var pages := blocks[first];
    var after, less := Cleared(data, first, pages), blocks - {first};
    forall i | 0 <= i < |after|
      ensures after[i].inUse <==> exists b :: Covers(less, b, i)
      ensures after[i].firstPage <==> i in less
    {
      if first <= i < first + pages {
        assert forall b :: !Covers(less, b, i);
      } else if data[i].inUse {
        var b :| Covers(blocks, b, i);
        assert Covers(less, b, i);
      } else if b :| Covers(less, b, i) {
        assert Covers(blocks, b, i);
      }
    }
  }

  /** Inside a block the next first page, free page or end of the area comes exactly at its end. */
  lemma BlockExtent(data: seq<VirtualPage>, blocks: map<nat, nat>, first: nat, i: nat)
    requires Encodes(data, blocks) && first in blocks && first < i <= first + blocks[first]
    ensures i < first + blocks[first] ==> data[i].inUse && !data[i].firstPage
    ensures i == first + blocks[first] && i < |data| ==> data[i].firstPage || !data[i].inUse
  {
    if i < first + blocks[first] {
      assert Covers(blocks, first, i);
    } else if i < |data| && data[i].inUse {
      var b :| Covers(blocks, b, i);
      assert b == i;
    }
  }

  /** Reserving and then unreserving leaves the bits as they were. */
  lemma MarkThenClear(data: seq<VirtualPage>, blocks: map<nat, nat>, first: nat, pages: nat)
    requires Encodes(data, blocks) && RunFree(data, first, pages) && pages > 0
    ensures Cleared(Marked(data, first, pages), first, pages) == data
  {
    MarkedEncodes(data, blocks, first, pages);
  }

  /**
   The allocator with the page tables of its area, the frames' reference counts and
   MemPhysicalFreePages. `blocks` are the reservations in force; `backed` are the pages that
   MemVirtualAlloc gave frames to.
   */
  datatype State = State(
    data: seq<VirtualPage>, table: seq<Option<nat>>, refs: seq<nat>, free: int,
    blocks: map<nat, nat>, backed: set<nat>)

  ghost predicate OwnsFrame(s: State, i: nat) {
    i < |s.table| && s.table[i].Some? && s.table[i].value < |s.refs| && s.refs[s.table[i].value] == 1
  }

  ghost predicate Inv(s: State) {
    && |s.data| <= |s.table|
    && Encodes(s.data, s.blocks)
    && (forall i :: 0 <= i < |s.data| && !s.data[i].inUse ==> s.table[i].None?)
    && (forall i :: i in s.backed ==> i < |s.data| && s.data[i].inUse && OwnsFrame(s, i))
    && (forall i, j :: i in s.backed && j in s.backed && s.table[i] == s.table[j] ==> i == j)
  }

  /** The page tables after the frames have been mapped one after another. */
  function Filled(table: seq<Option<nat>>, first: nat, frames: seq<nat>): (r: seq<Option<nat>>)
    ensures |r| == |table|
  {
    seq(|table|, i requires 0 <= i < |table| =>
      if first <= i < first + |frames| then Some(frames[i - first]) else table[i])
  }

  function Emptied(table: seq<Option<nat>>, first: nat, pages: nat): (r: seq<Option<nat>>)
    ensures |r| == |table|
  {
    seq(|table|, i requires 0 <= i < |table| => if first <= i < first + pages then None else table[i])
  }

  function SetCounts(refs: seq<nat>, frames: seq<nat>, count: nat): (r: seq<nat>)
    ensures |r| == |refs|
  {
    seq(|refs|, f requires 0 <= f < |refs| => if f in frames then count else refs[f])
  }

  /** Different frames, all of them free. */
  ghost predicate FreeFrames(refs: seq<nat>, frames: seq<nat>) {
    NoDuplicates(frames) && forall k :: 0 <= k < |frames| ==> frames[k] < |refs| && refs[frames[k]] == 0
  }

  predicate Within(i: nat, first: nat, pages: nat) {
    first <= i < first + pages
  }

  function PagesOf(first: nat, pages: nat): set<nat> {
    set i: nat | i < first + pages && Within(i, first, pages)
  }

  /** `frames` are what the pages from `first` on are mapped to. */
  ghost predicate Maps(table: seq<Option<nat>>, first: nat, frames: seq<nat>) {
    && first + |frames| <= |table|
    && forall i :: first <= i < first + |frames| ==> table[i] == Some(frames[i - first])
  }

  /**
   What can happen to the area. `Elsewhere` is the rest of the kernel: it maps and unmaps pages of
   blocks it merely reserved, and allocates and frees frames that MemVirtualAlloc does not own.
   */
  datatype Op =
    | Reserve(first: nat, pages: nat)
    | Unreserve(first: nat)
    | Alloc(first: nat, frames: seq<nat>)
    | Free(first: nat, frames: seq<nat>)
    | Elsewhere

  ghost predicate ReserveStep(s: State, first: nat, pages: nat, t: State) {
    && pages > 0 && FirstFit(s.data, first, pages)
    && t == s.(data := Marked(s.data, first, pages), blocks := s.blocks[first := pages])
  }

  /** The block is given up, whatever is mapped there. */
  function Unreserved(s: State, first: nat): State
    requires first in s.blocks
  {
    s.(data := Cleared(s.data, first, s.blocks[first]), blocks := s.blocks - {first})
  }

  ghost predicate Unmapped(s: State, first: nat) {
    && first in s.blocks && first + s.blocks[first] <= |s.table|
    && forall i: nat :: first <= i < first + s.blocks[first] ==> s.table[i].None?
  }

  ghost predicate UnreserveStep(s: State, first: nat, t: State) {
    Unmapped(s, first) && t == Unreserved(s, first)
  }

  ghost predicate AllocStep(s: State, first: nat, frames: seq<nat>, t: State) {
    && frames != [] && FirstFit(s.data, first, |frames|) && FreeFrames(s.refs, frames)
    && t == State(Marked(s.data, first, |frames|), Filled(s.table, first, frames), SetCounts(s.refs, frames, 1),
                  s.free - |frames|, s.blocks[first := |frames|], s.backed + PagesOf(first, |frames|))
  }

  /** The block is given up with what its pages are mapped to. */
  function Freed(s: State, first: nat, frames: seq<nat>): State {
    State(Cleared(s.data, first, |frames|), Emptied(s.table, first, |frames|), SetCounts(s.refs, frames, 0),
          s.free + |frames|, s.blocks - {first}, s.backed - PagesOf(first, |frames|))
  }

  /** `frames` are what the block's pages are mapped to, all in the page table. */
  ghost predicate MappedTo(s: State, first: nat, frames: seq<nat>) {
    && first in s.blocks && |frames| == s.blocks[first] && Maps(s.table, first, frames)
    && forall k :: 0 <= k < |frames| ==> frames[k] < |s.refs|
  }

  ghost predicate FreeStep(s: State, first: nat, frames: seq<nat>, t: State) {
    && first in s.blocks && |frames| == s.blocks[first]
    && PagesOf(first, |frames|) <= s.backed && Maps(s.table, first, frames)
    && t == Freed(s, first, frames)
  }

  ghost predicate ElsewhereStep(s: State, t: State) {
    && t.data == s.data && t.blocks == s.blocks && t.backed == s.backed && |t.table| == |s.table|
    && (forall i :: 0 <= i < |s.data| && i < |s.table| && (i in s.backed || !s.data[i].inUse) ==>
         t.table[i] == s.table[i])
    && (forall i :: i in s.backed ==> OwnsFrame(t, i))
  }

  ghost predicate Step(s: State, op: Op, t: State) {
    match op
    case Reserve(first, pages) => ReserveStep(s, first, pages, t)
    case Unreserve(first) => UnreserveStep(s, first, t)
    case Alloc(first, frames) => AllocStep(s, first, frames, t)
    case Free(first, frames) => FreeStep(s, first, frames, t)
    case Elsewhere => ElsewhereStep(s, t)
  }

  lemma AllocOwns(s: State, first: nat, frames: seq<nat>, t: State, i: nat)
    requires Inv(s) && AllocStep(s, first, frames, t) && i in t.backed
    ensures i < |t.data| && t.data[i].inUse && OwnsFrame(t, i)
    ensures i in PagesOf(first, |frames|) ==> t.table[i] == Some(frames[i - first])
    ensures i !in PagesOf(first, |frames|) ==>
      i in s.backed && OwnsFrame(s, i) && t.table[i] == s.table[i] && s.table[i].value !in frames
  {
    if i in PagesOf(first, |frames|) {
      assert t.table[i] == Some(frames[i - first]);
    } else {
      assert OwnsFrame(s, i) && t.table[i] == s.table[i];
    }
  }

  lemma AllocKeepsInv(s: State, first: nat, frames: seq<nat>, t: State)
    requires Inv(s) && AllocStep(s, first, frames, t)
    ensures Inv(t)
  {
    MarkedEncodes(s.data, s.blocks, first, |frames|);
    forall i | i in t.backed
      ensures i < |t.data| && t.data[i].inUse && OwnsFrame(t, i)
    {
      AllocOwns(s, first, frames, t, i);
    }
    forall i, j | i in t.backed && j in t.backed && t.table[i] == t.table[j]
      ensures i == j
    {
      AllocOwns(s, first, frames, t, i);
      AllocOwns(s, first, frames, t, j);
    }
  }

  /** What an allocation does, page by page and frame by frame. */
  lemma AllocMeans(s: State, first: nat, frames: seq<nat>, t: State)
    requires Inv(s) && AllocStep(s, first, frames, t)
    ensures t.free == s.free - |frames| && first in t.blocks && t.blocks[first] == |frames|
    ensures |t.table| == |s.table| && |t.refs| == |s.refs| && first + |frames| <= |s.table|
    ensures forall k :: 0 <= k < |frames| ==>
      frames[k] < |s.refs| && s.refs[frames[k]] == 0 && t.refs[frames[k]] == 1 && t.table[first + k] == Some(frames[k])
    ensures forall i :: 0 <= i < |s.table| && !(first <= i < first + |frames|) ==> t.table[i] == s.table[i]
    ensures forall f :: 0 <= f < |s.refs| && f !in frames ==> t.refs[f] == s.refs[f]
  {
  }

  /** What freeing a block does: its pages lose their frames, which are free, and nothing else changes. */
  lemma FreeMeans(s: State, first: nat, frames: seq<nat>, t: State)
    requires Inv(s) && FreeStep(s, first, frames, t)
    ensures t.free == s.free + |frames| && t.blocks == s.blocks - {first}
    ensures |t.table| == |s.table| && |t.refs| == |s.refs| && first + |frames| <= |s.table|
    ensures forall k :: 0 <= k < |frames| ==>
      && s.table[first + k] == Some(frames[k]) && t.table[first + k] == None
      && frames[k] < |s.refs| && t.refs[frames[k]] == 0
    ensures forall i :: 0 <= i < |s.table| && !(first <= i < first + |frames|) ==> t.table[i] == s.table[i]
    ensures forall f :: 0 <= f < |s.refs| && f !in frames ==> t.refs[f] == s.refs[f]
  {
    FreeKeepsInv(s, first, frames, t);
  }

  /** A block in force whose pages, if `frames` is given, are backed by exactly those frames. */
  ghost predicate Holds(s: State, first: nat, pages: nat, frames: Option<seq<nat>>) {
    && first in s.blocks && s.blocks[first] == pages
    && (frames.Some? ==>
         |frames.value| == pages && Maps(s.table, first, frames.value) && PagesOf(first, pages) <= s.backed)
  }

  lemma BackedPages(s: State, first: nat, frames: seq<nat>)
    requires Inv(s) && Holds(s, first, |frames|, Some(frames))
    ensures forall i :: first <= i < first + |frames| ==> i in s.backed && s.data[i].inUse
  {
    forall i: nat | first <= i < first + |frames|
      ensures i in s.backed
    {
      assert Within(i, first, |frames|);
    }
  }

  lemma OtherFramesKept(s: State, first: nat, frames: seq<nat>, i: nat)
    requires Inv(s) && Holds(s, first, |frames|, Some(frames)) && i in s.backed && !Within(i, first, |frames|)
    ensures OwnsFrame(s, i) && s.table[i].value !in frames
  {
    BackedPages(s, first, frames);
    forall k | 0 <= k < |frames|
      ensures frames[k] != s.table[i].value
    {
      assert s.table[first + k] == Some(frames[k]);
    }
  }

  lemma FreeKeepsInv(s: State, first: nat, frames: seq<nat>, t: State)
    requires Inv(s) && FreeStep(s, first, frames, t)
    ensures Inv(t)
    ensures NoDuplicates(frames)
    ensures forall k :: 0 <= k < |frames| ==> frames[k] < |s.refs| && s.refs[frames[k]] == 1
  {
    BackedIsNotElsewhere(s, first, frames);
    FreedKeepsInv(s, first, frames);
    BackedPages(s, first, frames);
    forall k | 0 <= k < |frames|
      ensures s.table[first + k] == Some(frames[k]) && frames[k] < |s.refs| && s.refs[frames[k]] == 1
    {
      assert OwnsFrame(s, first + k);
    }
  }

  /** Every operation keeps the encoding exact, free pages unmapped and each owned frame owned once. */
  lemma StepKeepsInv(s: State, op: Op, t: State)
    requires Inv(s) && Step(s, op, t)
    ensures Inv(t)
  {
    match op
    case Reserve(first, pages) => ReserveKeepsInv(s, first, pages, t);
    case Unreserve(first) => UnreserveKeepsInv(s, first, t);
    case Alloc(first, frames) => AllocKeepsInv(s, first, frames, t);
    case Free(first, frames) => FreeKeepsInv(s, first, frames, t);
    case Elsewhere => ElsewhereKeepsInv(s, t);
  }

  lemma ReserveKeepsInv(s: State, first: nat, pages: nat, t: State)
    requires Inv(s) && ReserveStep(s, first, pages, t)
    ensures Inv(t)
  {
    MarkedEncodes(s.data, s.blocks, first, pages);
  }

  /** MemVirtualUnReserve leaves a good state exactly if nothing is mapped in the block any more. */
  lemma UnreserveKeepsInvIff(s: State, first: nat)
    requires Inv(s) && first in s.blocks
    ensures Inv(Unreserved(s, first)) <==> Unmapped(s, first)
  {
    if Unmapped(s, first) {
      UnreserveKeepsInv(s, first, Unreserved(s, first));
    } else {
      ClearedEncodes(s.data, s.blocks, first);
      var i :| first <= i < first + s.blocks[first] && s.table[i].Some?;
      assert !Unreserved(s, first).data[i].inUse;
    }
  }

  /** One reserved page, still mapped: unreserving it leaves a free page mapped. */
  lemma UnreserveMappedExample() returns (s: State)
    ensures Inv(s) && 0 in s.blocks && !Inv(Unreserved(s, 0))
  {
    s := State([VirtualPage(true, true)], [Some(0)], [1], 0, map[0 := 1], {});
    assert Covers(s.blocks, 0, 0);
    UnreserveKeepsInvIff(s, 0);
  }

  /** A page of the block's frames is owned by no other block. */
  ghost predicate NotOwnedElsewhere(s: State, first: nat, frames: seq<nat>) {
    forall i :: i in s.backed && !Within(i, first, |frames|) && i < |s.table| && s.table[i].Some? ==>
      s.table[i].value !in frames
  }

  /** MemVirtualFree leaves a good state exactly if no other block owns one of the frames. */
  lemma FreeKeepsInvIff(s: State, first: nat, frames: seq<nat>)
    requires Inv(s) && MappedTo(s, first, frames)
    ensures Inv(Freed(s, first, frames)) <==> NotOwnedElsewhere(s, first, frames)
  {
    var t := Freed(s, first, frames);
    if NotOwnedElsewhere(s, first, frames) {
      FreedKeepsInv(s, first, frames);
    } else {
      var i :| i in s.backed && !Within(i, first, |frames|) && i < |s.table| && s.table[i].Some?
               && s.table[i].value in frames;
      assert i in t.backed && OwnsFrame(s, i);
      assert t.table[i] == s.table[i] && t.refs[s.table[i].value] == 0;
      assert !OwnsFrame(t, i);
    }
  }

  /** Page 0 is mapped to the frame that page 1 owns: freeing page 0 frees the frame under page 1. */
  lemma FreeSharedExample() returns (s: State)
    ensures Inv(s) && MappedTo(s, 0, [0]) && !Inv(Freed(s, 0, [0]))
  {
    var page := VirtualPage(true, true);
    s := State([page, page], [Some(0), Some(0)], [1], 0, map[0 := 1, 1 := 1], {1});
    assert Covers(s.blocks, 0, 0) && Covers(s.blocks, 1, 1) && OwnsFrame(s, 1);
    assert 1 in s.backed && s.table[1].value in [0];
    FreeKeepsInvIff(s, 0, [0]);
  }

  lemma FreedKeepsInv(s: State, first: nat, frames: seq<nat>)
    requires Inv(s) && MappedTo(s, first, frames) && NotOwnedElsewhere(s, first, frames)
    ensures Inv(Freed(s, first, frames))
  {
    var t := Freed(s, first, frames);
    ClearedEncodes(s.data, s.blocks, first);
    forall i | i in t.backed
      ensures i < |t.data| && t.data[i].inUse && OwnsFrame(t, i)
    {
      assert OwnsFrame(s, i);
    }
  }

  /** The frames of a block MemVirtualAlloc made are its own. */
  lemma BackedIsNotElsewhere(s: State, first: nat, frames: seq<nat>)
    requires Inv(s) && Holds(s, first, |frames|, Some(frames))
    ensures MappedTo(s, first, frames) && NotOwnedElsewhere(s, first, frames)
  {
    FramesOwned(s, first, frames);
    forall i | i in s.backed && !Within(i, first, |frames|)
      ensures i < |s.table| && s.table[i].Some? && s.table[i].value !in frames
    {
      OtherFramesKept(s, first, frames, i);
    }
  }

  lemma UnreserveKeepsInv(s: State, first: nat, t: State)
    requires Inv(s) && UnreserveStep(s, first, t)
    ensures Inv(t)
  {
    ClearedEncodes(s.data, s.blocks, first);
    forall i | i in t.backed
      ensures i < |t.data| && t.data[i].inUse && OwnsFrame(t, i)
    {
      assert OwnsFrame(s, i) && !(first <= i < first + s.blocks[first]);
    }
  }

  lemma ElsewhereKeepsInv(s: State, t: State)
    requires Inv(s) && ElsewhereStep(s, t)
    ensures Inv(t)
  {
  }

  /** The operation gives up the block starting at `first`. */
  predicate Ends(op: Op, first: nat) {
    (op.Unreserve? || op.Free?) && op.first == first
  }

  lemma AllocKeepsBlock(
    s: State, other: nat, others: seq<nat>, t: State, first: nat, pages: nat, frames: Option<seq<nat>>)
    requires Inv(s) && AllocStep(s, other, others, t) && Holds(s, first, pages, frames)
    ensures Holds(t, first, pages, frames)
  {
    MarkedEncodes(s.data, s.blocks, other, |others|);
    if frames.Some? {
      BackedPages(s, first, frames.value);
      assert forall i :: first <= i < first + pages ==> t.table[i] == s.table[i];
    }
  }

  lemma FreeKeepsBlock(
    s: State, other: nat, others: seq<nat>, t: State, first: nat, pages: nat, frames: Option<seq<nat>>)
    requires Inv(s) && FreeStep(s, other, others, t) && Holds(s, first, pages, frames) && first != other
    ensures Holds(t, first, pages, frames)
  {
    if frames.Some? {
      assert first + pages <= other || other + |others| <= first;
      assert forall i :: first <= i < first + pages ==> t.table[i] == s.table[i];
    }
  }

  /** No operation on another block disturbs a block, adjacent or not. */
  lemma StepKeepsBlock(s: State, op: Op, t: State, first: nat, pages: nat, frames: Option<seq<nat>>)
    requires Inv(s) && Step(s, op, t) && Holds(s, first, pages, frames) && !Ends(op, first)
    ensures Holds(t, first, pages, frames)
  {
    match op
    case Reserve(other, n) => MarkedEncodes(s.data, s.blocks, other, n);
    case Unreserve(_) =>
    case Alloc(other, others) => AllocKeepsBlock(s, other, others, t, first, pages, frames);
    case Free(other, others) => FreeKeepsBlock(s, other, others, t, first, pages, frames);
    case Elsewhere =>
      if frames.Some? {
        BackedPages(s, first, frames.value);
        assert forall i :: first <= i < first + pages ==> t.table[i] == s.table[i];
      }
  }

  /** A run: `states[k + 1]` is the result of `ops[k]`. */
  ghost predicate Run(states: seq<State>, ops: seq<Op>) {
    && |states| == |ops| + 1
    && forall k :: 0 <= k < |ops| ==> Step(states[k], ops[k], states[k + 1])
  }

  lemma {:induction false} RunKeepsBlock(
    states: seq<State>, ops: seq<Op>, first: nat, pages: nat, frames: Option<seq<nat>>)
    requires Run(states, ops) && Inv(states[0]) && Holds(states[0], first, pages, frames)
    requires forall k :: 0 <= k < |ops| ==> !Ends(ops[k], first)
    ensures Inv(states[|ops|]) && Holds(states[|ops|], first, pages, frames)
  {
    if ops != [] {
      var n := |ops| - 1;
      RunKeepsBlock(states[..|ops|], ops[..n], first, pages, frames);
      assert Step(states[n], ops[n], states[n + 1]);
      StepKeepsInv(states[n], ops[n], states[n + 1]);
      StepKeepsBlock(states[n], ops[n], states[n + 1], first, pages, frames);
    }
  }

  /** MemVirtualUnReserve of a reserved pointer frees precisely the pages reserved, whatever came between. */
  lemma UnreserveFreesWhatWasReserved(
    s: State, first: nat, pages: nat, states: seq<State>, ops: seq<Op>, last: State)
    requires Inv(s) && Run(states, ops) && ReserveStep(s, first, pages, states[0])
    requires forall k :: 0 <= k < |ops| ==> !Ends(ops[k], first)
    requires UnreserveStep(states[|ops|], first, last)
    ensures last.data == Cleared(states[|ops|].data, first, pages)
    ensures forall i :: first <= i < first + pages ==>
      i < |last.data| && !last.data[i].inUse && states[|ops|].data[i].inUse
  {
    StepKeepsInv(s, Reserve(first, pages), states[0]);
    RunKeepsBlock(states, ops, first, pages, None);
    forall i: nat | first <= i < first + pages
      ensures states[|ops|].data[i].inUse
    {
      assert Covers(states[|ops|].blocks, first, i);
    }
  }

  lemma AllocHolds(s: State, first: nat, frames: seq<nat>, t: State)
    requires Inv(s) && AllocStep(s, first, frames, t)
    ensures Holds(t, first, |frames|, Some(frames))
  {
  }

  lemma MapsOneWay(table: seq<Option<nat>>, first: nat, frames: seq<nat>, others: seq<nat>)
    requires Maps(table, first, frames) && Maps(table, first, others) && |frames| == |others|
    ensures frames == others
  {
    assert forall k :: 0 <= k < |frames| ==> table[first + k] == Some(frames[k]) && table[first + k] == Some(others[k]);
  }

  /** MemVirtualFree unmaps the very frames MemVirtualAlloc mapped and returns them, whatever came between. */
  lemma FreeReturnsWhatWasAllocated(
    s: State, first: nat, frames: seq<nat>, states: seq<State>, ops: seq<Op>, released: seq<nat>, last: State)
    requires Inv(s) && Run(states, ops) && AllocStep(s, first, frames, states[0])
    requires forall k :: 0 <= k < |ops| ==> !Ends(ops[k], first)
    requires FreeStep(states[|ops|], first, released, last)
    ensures released == frames
    ensures forall k :: 0 <= k < |frames| ==>
      frames[k] < |last.refs| && states[|ops|].refs[frames[k]] == 1 && last.refs[frames[k]] == 0
    ensures last.free == states[|ops|].free + |frames|
  {
    AllocKeepsInv(s, first, frames, states[0]);
    AllocHolds(s, first, frames, states[0]);
    RunKeepsBlock(states, ops, first, |frames|, Some(frames));
    MapsOneWay(states[|ops|].table, first, frames, released);
    FreeKeepsInv(states[|ops|], first, released, last);
  }

  /** With nothing in between, freeing restores the area, its mappings and every reference count. */
  lemma FreeUndoesAlloc(s: State, first: nat, frames: seq<nat>, t: State, u: State)
    requires Inv(s) && AllocStep(s, first, frames, t) && FreeStep(t, first, frames, u)
    ensures u == s
  {
    MarkedEncodes(s.data, s.blocks, first, |frames|);
    MarkThenClear(s.data, s.blocks, first, |frames|);
    assert u.table == s.table;
    assert u.refs == s.refs;
    assert u.blocks == s.blocks;
    forall i | i in s.backed
      ensures i !in PagesOf(first, |frames|)
    {
      assert s.data[i].inUse;
    }
    assert u.backed == s.backed;
  }

  /** A run starting before `i` and not fitting below it holds the page in use at or after its start. */
  lemma NoRunThrough(data: seq<VirtualPage>, j: nat, pages: nat, i: nat)
    requires j <= i < j + pages && i < |data| && data[i].inUse
    ensures !RunFree(data, j, pages)
  {
  }

  /** Taking one more free frame. */
  lemma TakeOneMore(refs: seq<nat>, frames: seq<nat>, f: nat)
    requires FreeFrames(refs, frames) && f < |refs| && SetCounts(refs, frames, 1)[f] == 0
    ensures FreeFrames(refs, frames + [f])
    ensures SetCounts(refs, frames + [f], 1) == SetCounts(refs, frames, 1)[f := 1]
    ensures Physical.FreeCount(SetCounts(refs, frames, 1)[f := 1]) == Physical.FreeCount(SetCounts(refs, frames, 1)) - 1
  {
    SumUpdate(SetCounts(refs, frames, 1), f, 1, Physical.IsFree);
  }

  lemma {:induction false} FreeCountBound(refs: seq<nat>)
    ensures Physical.FreeCount(refs) <= |refs|
  {
    if refs != [] {
      FreeCountBound(refs[..|refs| - 1]);
    }
  }

  lemma FillOneMore(table: seq<Option<nat>>, first: nat, frames: seq<nat>, f: nat)
    requires first + |frames| < |table|
    ensures Filled(table, first, frames + [f]) == Filled(table, first, frames)[first + |frames| := Some(f)]
  {
  }

  lemma FramesOwned(s: State, first: nat, frames: seq<nat>)
    requires Inv(s) && Holds(s, first, |frames|, Some(frames))
    ensures forall k :: 0 <= k < |frames| ==> frames[k] < |s.refs|
  {
    BackedPages(s, first, frames);
    forall k | 0 <= k < |frames|
      ensures frames[k] < |s.refs|
    {
      assert OwnsFrame(s, first + k);
    }
  }

  /** The allocator as the kernel holds it, with the page tables and frames it works on. */
  class KernelArea {
    const allocData: array<VirtualPage>
    const pageTables: array<Option<nat>>
    const refCount: array<nat>
    var freePages: int
    ghost var blocks: map<nat, nat>
    ghost var backed: set<nat>

    ghost function View(): State
      reads this, allocData, pageTables, refCount
    {
      State(allocData[..], pageTables[..], refCount[..], freePages, blocks, backed)
    }

    ghost predicate Valid()
      reads this, allocData, pageTables, refCount
    {
      && allocData.Length == VIRT_PAGES && pageTables.Length == 0x1_0000 && refCount.Length <= 0x8_0000
      && Inv(View())
    }

    constructor (frames: array<nat>, free: int)
      requires frames.Length <= 0x8_0000
      ensures Valid() && refCount == frames && freePages == free && blocks == map[] && backed == {}
    {
      allocData := new VirtualPage[VIRT_PAGES](_ => VirtualPage(false, false));
      pageTables := new Option<nat>[0x1_0000](_ => None);
      refCount, freePages, blocks, backed := frames, free, map[], {};
    }

    /** The marking loop of MemVirtualReserve, from the last page down to the first. */
    method Mark(first: nat, last: nat)
      requires first <= last < allocData.Length
      modifies allocData
      ensures allocData[..] == Marked(old(allocData[..]), first, last + 1 - first)
    {
      allocData[first] := VirtualPage(true, true);
      var i := last;
      while i > first
        invariant first <= i <= last
        invariant forall j :: 0 <= j < allocData.Length ==>
          allocData[j] == if j == first then VirtualPage(true, true)
                          else if i < j <= last then VirtualPage(true, old(allocData[j]).firstPage)
                          else old(allocData[j])
      {
        allocData[i] := allocData[i].(inUse := true);
        i := i - 1;
      }
    }

    /** The scan of MemVirtualReserve: the lowest free run of the given length, if there is one. */
    method FindRun(pages: nat) returns (run: Option<nat>)
      requires allocData.Length == VIRT_PAGES
      ensures run.Some? ==> pages > 0 && FirstFit(allocData[..], run.value, pages)
      ensures run.None? ==> pages == 0 || forall j: nat :: !RunFree(allocData[..], j, pages)
    {
      var first, soFar := 0, 0;
      ghost var data := allocData[..];
      for i := 0 to VIRT_PAGES
        invariant soFar <= i && (soFar > 0 ==> first == i - soFar)
        invariant forall j :: i - soFar <= j < i ==> !data[j].inUse
        invariant pages == 0 || soFar < pages
        invariant pages > 0 ==> forall j: nat :: j < i - soFar ==> !RunFree(data, j, pages)
      {
        if !allocData[i].inUse {
          if soFar == 0 {
            first := i;
          }
          soFar := soFar + 1;
          if soFar == pages {
            return Some(first);
          }
        } else {
          if pages > 0 {
            forall j: nat | i - soFar <= j <= i
              ensures !RunFree(data, j, pages)
            {
              NoRunThrough(data, j, pages, i);
            }
          }
          soFar := 0;
        }
      }
      return None;
    }

    /** MemVirtualReserve: first fit, and NULL exactly when no run is long enough or the length rounds to none. */
    method Reserve(bytes: nat) returns (ptr: nat)
      requires Valid() && bytes < WORD
      modifies this`blocks, allocData
      ensures Valid()
      ensures ptr == 0 ==> View() == old(View())
      ensures ptr == 0 <==> PagesFor(bytes) == 0 || forall j: nat :: !RunFree(old(allocData[..]), j, PagesFor(bytes))
      ensures ptr != 0 ==> ptr >= VIRT_BASE && (ptr - VIRT_BASE) % PAGE_SIZE == 0
      ensures ptr != 0 ==> ReserveStep(old(View()), (ptr - VIRT_BASE) / PAGE_SIZE, PagesFor(bytes), View())
      ensures bytes == 0 || bytes > WORD - PAGE_SIZE ==> ptr == 0
      ensures ptr == 0 && 0 < bytes <= WORD - PAGE_SIZE ==> NoRoom(old(allocData[..]), bytes)
      ensures ptr != 0 ==>
        var first := (ptr - VIRT_BASE) / PAGE_SIZE;
        first in blocks && (blocks[first] - 1) * PAGE_SIZE < bytes <= blocks[first] * PAGE_SIZE
      ensures ptr != 0 ==> 0xF000_0000 <= ptr && ptr + bytes <= 0xFFFF_C000
    {
      PagesHoldBytes(bytes);
      if bytes == 0 {
        return 0;
      }
      var pages := PagesFor(bytes);
      var run := FindRun(pages);
      if run.None? {
        if pages > 0 {
          NoLongerRun(allocData[..], pages);
        }
        return 0;
      }
      var first := run.value;
      Mark(first, first + pages - 1);
      blocks := blocks[first := pages];
      StepKeepsInv(old(View()), Op.Reserve(first, pages), View());
      return first * PAGE_SIZE + VIRT_BASE;
    }

    /** MemMapPage: refuses addresses outside the area, its last page and pages already mapped. */
    method MapPage(address: nat, page: nat) returns (ok: bool)
      requires address < WORD && pageTables.Length == 0x1_0000
      modifies pageTables
      ensures ok <==> VIRT_BASE <= address < 0xFFFF_F000 && old(pageTables[(address - VIRT_BASE) / PAGE_SIZE]).None?
      ensures pageTables[..] == if ok then old(pageTables[..])[(address - VIRT_BASE) / PAGE_SIZE := Some(page)]
                                else old(pageTables[..])
    {
      var addr := address - address % PAGE_SIZE;
      if addr < VIRT_BASE || addr == 0xFFFF_F000 {
        return false;
      }
      var entry := (addr - VIRT_BASE) / PAGE_SIZE;
      if pageTables[entry].Some? {
        return false;
      }
      pageTables[entry] := Some(page);
      return true;
    }

    /** MemUnmapPage: hands back the frame that was mapped, or none. */
    method UnmapPage(address: nat) returns (page: Option<nat>)
      requires address < WORD && pageTables.Length == 0x1_0000
      modifies pageTables
      ensures address < VIRT_BASE ==> page == None && pageTables[..] == old(pageTables[..])
      ensures address >= VIRT_BASE ==>
        && page == old(pageTables[(address - VIRT_BASE) / PAGE_SIZE])
        && pageTables[..] == old(pageTables[..])[(address - VIRT_BASE) / PAGE_SIZE := None]
    {
      var addr := address - address % PAGE_SIZE;
      if addr < VIRT_BASE {
        return None;
      }
      var entry := (addr - VIRT_BASE) / PAGE_SIZE;
      page := pageTables[entry];
      if page.Some? {
        pageTables[entry] := None;
      }
    }

    /** MemPhysicalAlloc(1): some free frame, or a panic when none is left. */
    method AllocFrame() returns (f: Option<nat>)
      modifies this`freePages, refCount
      ensures f.None? <==> Physical.FreeCount(old(refCount[..])) == 0
      ensures f.Some? ==>
        && f.value < refCount.Length && old(refCount[f.value]) == 0
        && refCount[..] == old(refCount[..])[f.value := 1] && freePages == old(freePages) - 1
    {
      Physical.FreePageExists(refCount[..]);
      if n: int :| 0 <= n < refCount.Length && refCount[n] == 0 {
        assert refCount[..][n] == 0;
        refCount[n] := 1;
        freePages := freePages - 1;
        return Some(n);
      }
      return None;
    }

    /** The frames have been taken and, unless the data is NULL, mapped from its page on. */
    ghost predicate Backing(table: seq<Option<nat>>, refs: seq<nat>, free: int, data: nat, frames: seq<nat>)
      reads this, pageTables, refCount
    {
      && FreeFrames(refs, frames) && refCount[..] == SetCounts(refs, frames, 1)
      && |frames| + Physical.FreeCount(refCount[..]) == Physical.FreeCount(refs)
      && freePages == free - |frames|
      && pageTables[..] == if data < VIRT_BASE then table else Filled(table, (data - VIRT_BASE) / PAGE_SIZE, frames)
    }

    lemma NextPage(data: nat, off: nat, done: nat)
      requires data >= VIRT_BASE && data % PAGE_SIZE == 0 && off == done * PAGE_SIZE && data + off < 0xFFFF_F000
      ensures Add32(data, off) == data + off
      ensures (data + off - VIRT_BASE) / PAGE_SIZE == (data - VIRT_BASE) / PAGE_SIZE + done
    {
    }

    /** One turn of the loop of MemVirtualAlloc, or None where the kernel panics for want of frames. */
    method BackOne(data: nat, off: nat, ghost table: seq<Option<nat>>, ghost refs: seq<nat>, ghost free: int,
                   ghost frames: seq<nat>)
      returns (f: Option<nat>)
      requires pageTables.Length == 0x1_0000 && Backing(table, refs, free, data, frames)
      requires off == |frames| * PAGE_SIZE && off < VIRT_BASE
      requires data == 0 || (
        && data >= VIRT_BASE && data % PAGE_SIZE == 0 && data + off < 0xFFFF_F000
        && table[(data - VIRT_BASE) / PAGE_SIZE + |frames|].None?)
      modifies this`freePages, pageTables, refCount
      ensures f.None? <==> Physical.FreeCount(refs) == |frames|
      ensures f.Some? ==> Backing(table, refs, free, data, frames + [f.value])
    {
      f := AllocFrame();
      if f.Some? {
        TakeOneMore(refs, frames, f.value);
        if data != 0 {
          NextPage(data, off, |frames|);
          FillOneMore(table, (data - VIRT_BASE) / PAGE_SIZE, frames, f.value);
        }
        var mapped := MapPage(Add32(data, off), f.value);
      }
    }

    /**
     The loop of MemVirtualAlloc, or false where the kernel panics for want of frames. For NULL
     (zero) data every mapping is refused, and the frames are taken all the same.
     */
    method BackPages(data: nat, bytes: nat) returns (ok: bool, ghost frames: seq<nat>)
      requires bytes < WORD && pageTables.Length == 0x1_0000 && refCount.Length <= 0x8_0000
      requires data == 0 || (
        && VIRT_BASE <= data && data % PAGE_SIZE == 0 && data + bytes <= 0xFFFF_F000
        && forall i :: (data - VIRT_BASE) / PAGE_SIZE <= i < (data - VIRT_BASE) / PAGE_SIZE + PagesNeeded(bytes) ==>
             pageTables[i].None?)
      modifies this`freePages, pageTables, refCount
      ensures ok <==> PagesNeeded(bytes) <= Physical.FreeCount(old(refCount[..]))
      ensures ok ==> |frames| == PagesNeeded(bytes)
      ensures ok ==> Backing(old(pageTables[..]), old(refCount[..]), old(freePages), data, frames)
    {
      var off := 0;
      frames := [];
      ghost var refs, table, free := refCount[..], pageTables[..], freePages;
      assert Backing(table, refs, free, data, []);
      FreeCountBound(refs);
      while off < bytes
        invariant off == |frames| * PAGE_SIZE && |frames| <= PagesNeeded(bytes)
        invariant Backing(table, refs, free, data, frames)
        decreases Physical.FreeCount(refCount[..])
      {
        MorePages(|frames|, bytes);
        var f := BackOne(data, off, table, refs, free, frames);
        if f.None? {
          return false, frames;
        }
        off := Add32(off, PAGE_SIZE);
        frames := frames + [f.value];
      }
      NoMorePages(|frames|, bytes);
      return true, frames;
    }

    /**
     MemVirtualAlloc, or None where the kernel panics for want of frames. A refused request of more
     than zero bytes loses the frames it would have used.
     */
    method Alloc(bytes: nat) returns (result: Option<nat>, ghost frames: seq<nat>)
      requires Valid() && bytes < WORD
      modifies this, allocData, pageTables, refCount
      ensures result.None? <==> Physical.FreeCount(old(refCount[..])) < PagesNeeded(bytes)
      ensures result.Some? ==> Valid() && |frames| == PagesNeeded(bytes)
      ensures result.Some? ==>
        (result.value == 0 <==>
          PagesFor(bytes) == 0 || forall j: nat :: !RunFree(old(allocData[..]), j, PagesFor(bytes)))
      ensures result.Some? && result.value != 0 ==>
        && result.value >= VIRT_BASE && (result.value - VIRT_BASE) % PAGE_SIZE == 0
        && AllocStep(old(View()), (result.value - VIRT_BASE) / PAGE_SIZE, frames, View())
      ensures result == Some(0) ==>
        && FreeFrames(old(refCount[..]), frames) && ElsewhereStep(old(View()), View())
        && View() == old(View()).(refs := SetCounts(old(refCount[..]), frames, 1), free := old(freePages) - |frames|)
    {
      ghost var before := View();
      var data := Reserve(bytes);
      var ok: bool;
      if data != 0 {
        ok, frames := BackBlock(data, bytes, before);
      } else {
        ok, frames := BackPages(data, bytes);
        if ok {
          Lost(before, frames);
        }
      }
      return if ok then Some(data) else None, frames;
    }

    /** Frames for the block just reserved. */
    method BackBlock(data: nat, bytes: nat, ghost before: State) returns (ok: bool, ghost frames: seq<nat>)
      requires Valid() && Inv(before) && 0 < bytes && VIRT_BASE <= data && (data - VIRT_BASE) % PAGE_SIZE == 0
      requires data + bytes <= 0xFFFF_C000
      requires ReserveStep(before, (data - VIRT_BASE) / PAGE_SIZE, PagesNeeded(bytes), View())
      modifies this`freePages, this`backed, pageTables, refCount
      ensures ok <==> PagesNeeded(bytes) <= Physical.FreeCount(before.refs)
      ensures ok ==> Valid() && |frames| == PagesNeeded(bytes)
      ensures ok ==> AllocStep(before, (data - VIRT_BASE) / PAGE_SIZE, frames, View())
    {
      ghost var first := (data - VIRT_BASE) / PAGE_SIZE;
      assert pageTables[..] == before.table && refCount[..] == before.refs;
      assert RunFree(before.data, first, PagesNeeded(bytes));
      ok, frames := BackPages(data, bytes);
      if ok {
        Own(first, before, frames);
      }
    }

    /** The block's pages are mapped: it owns their frames from now on. */
    ghost method Own(first: nat, before: State, frames: seq<nat>)
      requires Inv(before) && allocData.Length == VIRT_PAGES
      requires pageTables.Length == 0x1_0000 && refCount.Length <= 0x8_0000
      requires frames != [] && FirstFit(before.data, first, |frames|) && FreeFrames(before.refs, frames)
      requires View() == State(Marked(before.data, first, |frames|), Filled(before.table, first, frames),
                               SetCounts(before.refs, frames, 1), before.free - |frames|,
                               before.blocks[first := |frames|], before.backed)
      modifies this`backed
      ensures Valid() && AllocStep(before, first, frames, View())
    {
      backed := backed + PagesOf(first, |frames|);
      AllocKeepsInv(before, first, frames, View());
    }

    /** The frames of a refused request are taken for nothing. */
    lemma Lost(before: State, frames: seq<nat>)
      requires Inv(before) && allocData.Length == VIRT_PAGES
      requires pageTables.Length == 0x1_0000 && refCount.Length <= 0x8_0000
      requires FreeFrames(before.refs, frames)
      requires View() == before.(refs := SetCounts(before.refs, frames, 1), free := before.free - |frames|)
      ensures Valid() && ElsewhereStep(before, View())
    {
      LostFrames(before, frames);
      StepKeepsInv(before, Elsewhere, View());
    }

    /** One page's share of MemVirtualFree: its frame is unmapped and its reference count zeroed. */
    method FreeOne(i: nat, ghost table: seq<Option<nat>>, ghost refs: seq<nat>, ghost first: nat,
                   ghost frames: seq<nat>, ghost k: nat)
      requires pageTables.Length == 0x1_0000 && i < VIRT_PAGES && k < |frames| && i == first + k
      requires Maps(table, first, frames) && frames[k] < refCount.Length
      requires pageTables[..] == Emptied(table, first, k) && refCount[..] == SetCounts(refs, frames[..k], 0)
      modifies this`freePages, pageTables, refCount
      ensures pageTables[..] == Emptied(table, first, k + 1) && refCount[..] == SetCounts(refs, frames[..k + 1], 0)
      ensures freePages == old(freePages) + 1
    {
      assert pageTables[..][i] == Some(frames[k]);
      var page := UnmapPage(i * PAGE_SIZE + VIRT_BASE);
      refCount[page.value] := 0;
      freePages := freePages + 1;
      assert frames[..k + 1] == frames[..k] + [frames[k]];
    }

    /** The clearing loop of DoUnreserve over the block at `first`. */
    method ClearBlock(first: nat, freeing: bool, ghost frames: seq<nat>)
      requires allocData.Length == VIRT_PAGES && pageTables.Length == 0x1_0000
      requires Encodes(allocData[..], blocks) && first in blocks
      requires freeing ==> |frames| == blocks[first] && Maps(pageTables[..], first, frames)
      requires freeing ==> forall k :: 0 <= k < |frames| ==> frames[k] < refCount.Length
      modifies this`freePages, allocData, pageTables, refCount
      ensures allocData[..] == Cleared(old(allocData[..]), first, blocks[first])
      ensures !freeing ==> pageTables[..] == old(pageTables[..]) && refCount[..] == old(refCount[..])
      ensures !freeing ==> freePages == old(freePages)
      ensures freeing ==> pageTables[..] == Emptied(old(pageTables[..]), first, |frames|)
      ensures freeing ==> refCount[..] == SetCounts(old(refCount[..]), frames, 0)
      ensures freeing ==> freePages == old(freePages) + |frames|
    {
      ghost var data, end := allocData[..], first + blocks[first];
      ghost var table, refs := pageTables[..], refCount[..];
      allocData[first] := allocData[first].(firstPage := false);
      var i := first;
      assert Covers(blocks, first, first);
      assert freeing ==> Emptied(table, first, 0) == table && SetCounts(refs, frames[..0], 0) == refs;
      while i < VIRT_PAGES
        invariant first <= i <= end
        invariant forall j :: 0 <= j < VIRT_PAGES ==>
          allocData[j] == if first <= j < i then VirtualPage(false, j != first && data[j].firstPage)
                          else if j == first then VirtualPage(true, false)
                          else data[j]
        invariant !freeing ==> pageTables[..] == table && refCount[..] == refs && freePages == old(freePages)
        invariant freeing ==> pageTables[..] == Emptied(table, first, i - first)
        invariant freeing ==> refCount[..] == SetCounts(refs, frames[..i - first], 0)
        invariant freeing ==> freePages == old(freePages) + i - first
      {
        if i > first {
          BlockExtent(data, blocks, first, i);
        }
        if allocData[i].firstPage || !allocData[i].inUse {
          break;
        }
        allocData[i] := allocData[i].(inUse := false);
        if freeing {
          FreeOne(i, table, refs, first, frames, i - first);
        }
        i := i + 1;
      }
      assert freeing ==> frames[..i - first] == frames;
    }

    /**
     DoUnreserve for MemVirtualUnReserve (`freeing` false) and MemVirtualFree (true). NULL and pages
     that do not start a block are refused; any address inside the first page will do. Freeing pages
     with nothing mapped is excluded: the code then frees page -1.
     */
    method DoUnreserve(ptr: nat, freeing: bool, ghost frames: seq<nat>)
      requires Valid() && (ptr == 0 || VIRT_BASE <= ptr < VIRT_BASE + VIRT_PAGES * PAGE_SIZE)
      requires freeing && ptr != 0 && (ptr - VIRT_BASE) / PAGE_SIZE in blocks ==>
        MappedTo(View(), (ptr - VIRT_BASE) / PAGE_SIZE, frames)
      modifies this, allocData, pageTables, refCount
      ensures ptr == 0 || (ptr - VIRT_BASE) / PAGE_SIZE !in old(blocks) ==> View() == old(View())
      ensures !freeing && ptr != 0 && (ptr - VIRT_BASE) / PAGE_SIZE in old(blocks) ==>
        && View() == Unreserved(old(View()), (ptr - VIRT_BASE) / PAGE_SIZE)
        && (Valid() <==> Unmapped(old(View()), (ptr - VIRT_BASE) / PAGE_SIZE))
      ensures freeing && ptr != 0 && (ptr - VIRT_BASE) / PAGE_SIZE in old(blocks) ==>
        && View() == Freed(old(View()), (ptr - VIRT_BASE) / PAGE_SIZE, frames)
        && (Valid() <==> NotOwnedElsewhere(old(View()), (ptr - VIRT_BASE) / PAGE_SIZE, frames))
    {
      if ptr == 0 {
        return;
      }
      var index := (ptr - VIRT_BASE) / PAGE_SIZE;
      if !allocData[index].firstPage {
        return;
      }
      ghost var before := View();
      ClearBlock(index, freeing, frames);
      blocks := blocks - {index};
      if freeing {
        backed := backed - PagesOf(index, |frames|);
        FreeKeepsInvIff(before, index, frames);
        assert View() == Freed(before, index, frames);
      } else {
        UnreserveKeepsInvIff(before, index);
        assert View() == Unreserved(before, index);
      }
    }
  }

  /** Frames taken without being mapped change nothing the area owns. */
  lemma LostFrames(s: State, frames: seq<nat>)
    requires Inv(s) && FreeFrames(s.refs, frames)
    ensures ElsewhereStep(s, s.(refs := SetCounts(s.refs, frames, 1), free := s.free - |frames|))
  {
    var t := s.(refs := SetCounts(s.refs, frames, 1), free := s.free - |frames|);
    forall i | i in s.backed
      ensures OwnsFrame(t, i)
    {
      assert OwnsFrame(s, i);
    }
  }
}
