/**
 Copy-on-write address spaces: kernel/src/mm/region.c, kernel/src/mm/pageFault.c and
 kernel/src/mm/pageMapping.c over the reference counts of kernel/src/mm/physical.c.

 The state holds every context's page directory, page tables and regions, the reference count and
 the contents of every frame. A frame handed out by the physical allocator is a parameter of the
 step that asks for one, so the results hold for every choice the allocator could make.
 */
module AddressSpaces {
  import opened Common
  import opened Regions

  /** Entries in a page table, tables in the user part of a directory, and pages in user space. */
  const TABLE_ENTRIES := 1024
  const USER_TABLES := 0x300
  const USER_PAGES := 0x300 * 1024

  type Page = seq<bv8>

  function ZeroPage(): (p: Page)
    ensures |p| == PAGE_SIZE && forall i :: 0 <= i < PAGE_SIZE ==> p[i] == 0
  {
    seq(PAGE_SIZE, _ => 0)
  }

  ghost predicate Zeros(p: Page) {
    forall i :: 0 <= i < |p| ==> p[i] == 0
  }

  datatype Pte = Absent | Present(frame: nat, writable: bool)

  datatype Context = Context(directory: nat, tables: seq<Option<nat>>, ptes: seq<Pte>, regions: seq<Region>)

  /** `pinned` counts the references the rest of the kernel holds on each frame. */
  datatype State = State(contexts: seq<Option<Context>>, refs: seq<nat>, memory: seq<Page>, pinned: seq<nat>)

  // ---------------------------------------------------------------- counting references

  function PteNames(f: nat): Pte -> nat {
    p => if p == Present(f, true) || p == Present(f, false) then 1 else 0
  }

  function TableNames(f: nat): Option<nat> -> nat {
    t => if t == Some(f) then 1 else 0
  }

  function ContextPtes(f: nat): Option<Context> -> nat {
    (c: Option<Context>) => if c.Some? then Sum(c.value.ptes, PteNames(f)) else 0
  }

  function ContextTables(f: nat): Option<Context> -> nat {
    (c: Option<Context>) =>
      if c.Some? then Sum(c.value.tables, TableNames(f)) + (if c.value.directory == f then 1 else 0)
      else 0
  }

  /** The number of present page-table entries naming a frame, across all contexts. */
  function PteRefs(s: State, f: nat): nat {
    Sum(s.contexts, ContextPtes(f))
  }

  /** The number of directories and page tables stored in a frame, across all contexts. */
  function TableRefs(s: State, f: nat): nat {
    Sum(s.contexts, ContextTables(f))
  }

  // ---------------------------------------------------------------- the invariant

  /** The region covering a page, if there is one. */
  ghost predicate Covered(regions: seq<Region>, v: nat, writable: bool) {
    exists i :: 0 <= i < |regions| && regions[i].Contains(v * PAGE_SIZE) && (writable ==> regions[i].flags.writable)
  }

  ghost predicate ContextValid(c: Context, frames: nat) {
    && |c.ptes| == USER_PAGES
    && |c.tables| == USER_TABLES
    && c.directory < frames
    && WellFormed(c.regions)
    && (forall i :: 0 <= i < |c.tables| && c.tables[i].Some? ==> c.tables[i].value < frames)
    && (forall v :: 0 <= v < |c.ptes| && c.ptes[v].Present? ==> PteValid(c, v, frames))
  }

  ghost predicate PteValid(c: Context, v: nat, frames: nat)
    requires v < |c.ptes| == USER_PAGES && |c.tables| == USER_TABLES && c.ptes[v].Present?
  {
    && c.ptes[v].frame < frames
    && c.tables[v / TABLE_ENTRIES].Some?
    && Covered(c.regions, v, c.ptes[v].writable)
  }

  ghost predicate Shaped(s: State) {
    && |s.refs| == |s.memory| == |s.pinned|
    && (forall f :: 0 <= f < |s.memory| ==> |s.memory[f]| == PAGE_SIZE)
    && (forall c :: 0 <= c < |s.contexts| && s.contexts[c].Some? ==> ContextValid(s.contexts[c].value, |s.refs|))
  }

  /** A frame's count is the number of its users, and its users are all of one kind. */
  ghost predicate CountsAgree(s: State, f: nat)
    requires f < |s.refs| == |s.pinned|
  {
    && s.refs[f] == PteRefs(s, f) + TableRefs(s, f) + s.pinned[f]
    && TableRefs(s, f) <= 1
    && (PteRefs(s, f) > 0 ==> TableRefs(s, f) == 0 && s.pinned[f] == 0)
    && (TableRefs(s, f) > 0 ==> s.pinned[f] == 0)
  }

  ghost predicate Live(s: State, c: nat) {
    c < |s.contexts| && s.contexts[c].Some?
  }

  /** The page-table entry of a page, Absent outside live contexts. */
  ghost function Entry(s: State, c: nat, v: nat): Pte {
    if Live(s, c) && v < |s.contexts[c].value.ptes| then s.contexts[c].value.ptes[v] else Absent
  }

  /** A writable entry is the only entry naming its frame. */
  ghost predicate WritableSole(s: State) {
    forall c: nat, v: nat :: Entry(s, c, v).Present? && Entry(s, c, v).writable ==>
      PteRefs(s, Entry(s, c, v).frame) == 1
  }

  ghost predicate Inv(s: State) {
    && Shaped(s)
    && (forall f :: 0 <= f < |s.refs| ==> CountsAgree(s, f))
    && WritableSole(s)
  }

  // ---------------------------------------------------------------- the kernel's steps

  /** Puts `p` in the entry of one page. */
  function WithPte(s: State, c: nat, v: nat, p: Pte): State
    requires c < |s.contexts| && s.contexts[c].Some? && v < |s.contexts[c].value.ptes|
  {
    var ctx := s.contexts[c].value;
    s.(contexts := s.contexts[c := Some(ctx.(ptes := ctx.ptes[v := p]))])
  }

  /** MemPhysicalDeleteRef of one page. */
  function DeleteRef(refs: seq<nat>, f: nat): seq<nat>
    requires f < |refs|
  {
    if refs[f] > 0 then refs[f := refs[f] - 1] else refs
  }

  /** MemIntUnmapUserPageAndFree. */
  function Unmap(s: State, c: nat, v: nat): State
    requires Shaped(s) && Live(s, c) && v < USER_PAGES
  {
    var p := s.contexts[c].value.ptes[v];
    if p.Absent? then s
    else State(WithPte(s, c, v, Absent).contexts, DeleteRef(s.refs, p.frame), s.memory, s.pinned)
  }

  /** A free frame, as MemPhysicalAlloc returns. */
  ghost predicate Free(s: State, f: nat) {
    f < |s.refs| && s.refs[f] == 0
  }

  /** MemIntMapUserPage: the entry is written, in a new page table if there is none. */
  function Mapped(ctx: Context, v: nat, p: Pte, table: nat): Context
    requires v < |ctx.ptes| && v / TABLE_ENTRIES < |ctx.tables|
  {
    Context(ctx.directory,
            if ctx.tables[v / TABLE_ENTRIES].Some? then ctx.tables else ctx.tables[v / TABLE_ENTRIES := Some(table)],
            ctx.ptes[v := p],
            ctx.regions)
  }

  /** Demand paging: a zeroed frame mapped with the region's rights. */
  function DemandZero(s: State, c: nat, v: nat, writable: bool, frame: nat, table: nat): State
    requires Shaped(s) && Live(s, c) && v < USER_PAGES
    requires frame < |s.refs|
    requires s.contexts[c].value.tables[v / TABLE_ENTRIES].None? ==> table < |s.refs|
  {
    var ctx := s.contexts[c].value;
    var refs := s.refs[frame := 1];
    State(s.contexts[c := Some(Mapped(ctx, v, Present(frame, writable), table))],
          if ctx.tables[v / TABLE_ENTRIES].Some? then refs else refs[table := 1],
          s.memory[frame := ZeroPage()],
          s.pinned)
  }

  /** Copy on write: a shared frame is duplicated first, then the entry becomes writable. */
  function CopyOnWrite(s: State, c: nat, v: nat, frame: nat): State
    requires Shaped(s) && Live(s, c) && v < USER_PAGES && s.contexts[c].value.ptes[v].Present?
    requires s.refs[s.contexts[c].value.ptes[v].frame] > 1 ==> frame < |s.refs|
  {
    var shared := s.contexts[c].value.ptes[v].frame;
    if s.refs[shared] > 1 then
      State(WithPte(s, c, v, Present(frame, true)).contexts,
            DeleteRef(s.refs[frame := 1], shared),
            s.memory[frame := s.memory[shared]],
            s.pinned)
    else
      WithPte(s, c, v, Present(shared, true))
  }

  function ReadOnly(p: Pte): Pte {
    if p.Present? then Present(p.frame, false) else Absent
  }

  function AllReadOnly(ptes: seq<Pte>): (r: seq<Pte>)
    ensures |r| == |ptes|
  {
    seq(|ptes|, v requires 0 <= v < |ptes| => ReadOnly(ptes[v]))
  }

  function Users(ptes: Option<Context>, tables: Option<Context>, f: nat): nat {
    ContextPtes(f)(ptes) + ContextTables(f)(tables)
  }

  /** The counts after a clone: one more per entry of the parent, one per frame of the child's tables. */
  function RaisedRefs(refs: seq<nat>, parent: Option<Context>, child: Option<Context>): (r: seq<nat>)
    ensures |r| == |refs|
  {
    seq(|refs|, f requires 0 <= f < |refs| => refs[f] + Users(parent, child, f))
  }

  /** MemContextClone: every page gains a reference and loses its writable bit, and the tables are copied. */
  function Cloned(s: State, c: nat, directory: nat, tables: seq<Option<nat>>): State
    requires Live(s, c)
  {
    var parent := s.contexts[c].value.(ptes := AllReadOnly(s.contexts[c].value.ptes));
    var child := Some(parent.(directory := directory, tables := tables));
    State(s.contexts[c := Some(parent)] + [child], RaisedRefs(s.refs, s.contexts[c], child), s.memory, s.pinned)
  }

  function Minus(a: nat, b: nat): nat {
    if a < b then 0 else a - b
  }

  /** The counts after a deletion: one less per entry, and one less per frame of the tables. */
  function LoweredRefs(refs: seq<nat>, ctx: Option<Context>): (r: seq<nat>)
    ensures |r| == |refs|
  {
    seq(|refs|, f requires 0 <= f < |refs| => Minus(refs[f], Users(ctx, ctx, f)))
  }

  /** MemContextDelete: every page loses a reference, every table and the directory are freed. */
  function Deleted(s: State, c: nat): State
    requires Live(s, c)
  {
    State(s.contexts[c := None], LoweredRefs(s.refs, s.contexts[c]), s.memory, s.pinned)
  }
}
