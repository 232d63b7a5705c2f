/**
 The memory manager's operations as the kernel performs them, on page tables and reference counts
 updated in place, each tied to the step of AddressSpaceRuns it carries out.
 */
module MemoryManager {
  import opened Common
  import opened Regions
  import opened AddressSpaces
  import opened AddressSpaceRuns
  import Physical

  class MemContext {
    var directory: nat
    var regions: seq<Region>
    const tables: array<Option<nat>>
    const ptes: array<Pte>

    constructor (directory: nat, regions: seq<Region>)
      ensures this.directory == directory && this.regions == regions
      ensures fresh(tables) && fresh(ptes)
      ensures tables[..] == seq(USER_TABLES, _ => None)
      ensures ptes[..] == seq(USER_PAGES, _ => Absent)
    {
      this.directory := directory;
      this.regions := regions;
      tables := new Option<nat>[USER_TABLES](_ => None);
      ptes := new Pte[USER_PAGES](_ => Absent);
    }

    ghost function View(): Context
      reads this, tables, ptes
    {
      Context(directory, tables[..], ptes[..], regions)
    }
  }

  /** No region has the address, or its page is there and is not one to be copied on a write. */
  ghost predicate Denied(regions: seq<Region>, entry: Pte, address: nat) {
    forall i :: 0 <= i < |regions| && regions[i].Contains(address) ==>
      entry.Present? && (entry.writable || !regions[i].flags.writable)
  }

  lemma OneRegionDecides(regions: seq<Region>, entry: Pte, address: nat, r: nat)
    requires WellFormed(regions) && r < |regions| && regions[r].Contains(address)
    ensures Denied(regions, entry, address) <==> entry.Present? && (entry.writable || !regions[r].flags.writable)
  {
    forall i | 0 <= i < |regions| && regions[i].Contains(address)
      ensures i == r
    {
    }
  }

  class Manager {
    const refs: array<nat>
    const memory: array<Page>
    var contexts: seq<MemContext?>
    ghost var pinned: seq<nat>

    ghost function Tables(): set<object>
      reads this
    {
      (set c: MemContext | c in contexts :: c as object)
      + (set c: MemContext | c in contexts :: c.ptes as object)
      + (set c: MemContext | c in contexts :: c.tables as object)
    }

    ghost function ViewOf(c: MemContext?): Option<Context>
      requires c != null ==> c in contexts
      reads this, Tables()
    {
      if c == null then None else Some(c.View())
    }

    ghost function View(): State
      reads this, refs, memory, Tables()
    {
      State(seq(|contexts|, i requires 0 <= i < |contexts| reads this, Tables() => ViewOf(contexts[i])),
            refs[..], memory[..], pinned)
    }

    /** No two contexts share an object, and the counts agree with the tables. */
    ghost predicate Valid()
      reads this, refs, memory, Tables()
    {
      Apart() && Inv(View())
    }

    ghost predicate Apart()
      reads this
    {
      forall i, j :: 0 <= i < j < |contexts| && contexts[i] != null && contexts[j] != null ==>
        && contexts[i] != contexts[j]
        && contexts[i].ptes != contexts[j].ptes
        && contexts[i].tables != contexts[j].tables
    }

    ghost predicate ApartFrom(child: MemContext)
      reads this
    {
      forall i :: 0 <= i < |contexts| && contexts[i] != null ==>
        contexts[i] != child && contexts[i].ptes != child.ptes && contexts[i].tables != child.tables
    }

    /** The number of free frames. */
    ghost function Spare(): nat
      reads refs
    {
      Physical.FreeCount(refs[..])
    }

    /** MemPhysicalAlloc of one page: some free frame, or None when there is none and the kernel gets no further. */
    method AllocFrame() returns (f: Option<nat>)
      modifies refs
      ensures f.None? <==> old(Spare()) == 0
      ensures f.None? ==> refs[..] == old(refs[..])
      ensures f.Some? ==> f.value < refs.Length && old(refs[f.value]) == 0 && refs[..] == old(refs[..])[f.value := 1]
      ensures f.Some? ==> Spare() == old(Spare()) - 1
    {
      Physical.FreePageExists(refs[..]);
      if n: int :| 0 <= n < refs.Length && refs[n] == 0 {
        assert refs[..][n] == 0;
        SumUpdate(refs[..], n, 1, Physical.IsFree);
        refs[n] := 1;
        assert refs[..] == old(refs[..])[n := 1];
        return Some(n);
      }
      assert forall n :: 0 <= n < refs.Length ==> refs[..][n] == refs[n];
      return None;
    }

    /** The inner loop of MemContextClone: one table's pages gain a reference and become read-only. */
    method ShareTable(ptes: array<Pte>, i: nat)
      requires i < USER_TABLES && ptes.Length == USER_PAGES
      requires forall v :: 0 <= v < USER_PAGES && ptes[v].Present? ==> ptes[v].frame < refs.Length
      modifies refs, ptes
      ensures forall v :: 0 <= v < USER_PAGES ==>
        ptes[v] == if i * TABLE_ENTRIES <= v < (i + 1) * TABLE_ENTRIES then ReadOnly(old(ptes[v])) else old(ptes[v])
      ensures forall f :: 0 <= f < refs.Length ==>
        refs[f] == old(refs[f]) + Sum(old(ptes[i * TABLE_ENTRIES..(i + 1) * TABLE_ENTRIES]), PteNames(f))
    {
      var base := i * TABLE_ENTRIES;
      ghost var before := ptes[base..base + TABLE_ENTRIES];
      for j := 0 to TABLE_ENTRIES
        invariant forall v :: 0 <= v < USER_PAGES ==>
          ptes[v] == if base <= v < base + j then ReadOnly(old(ptes[v])) else old(ptes[v])
        invariant forall f :: 0 <= f < refs.Length ==> refs[f] == old(refs[f]) + Sum(before[..j], PteNames(f))
      {
        assert before[..j + 1][..j] == before[..j] && before[j] == old(ptes[base + j]);
        if ptes[base + j].Present? {
          var f := ptes[base + j].frame;
          refs[f] := refs[f] + 1;
          ptes[base + j] := Present(f, false);
        }
      }
      assert before[..TABLE_ENTRIES] == before;
    }

    /** Duplicates one page table. */
    method CopyTable(from: array<Pte>, to: array<Pte>, i: nat)
      requires i < USER_TABLES && from.Length == to.Length == USER_PAGES && from != to
      modifies to
      ensures forall v :: 0 <= v < USER_PAGES ==>
        to[v] == if i * TABLE_ENTRIES <= v < (i + 1) * TABLE_ENTRIES then from[v] else old(to[v])
    {
      var base := i * TABLE_ENTRIES;
      for j := 0 to TABLE_ENTRIES
        invariant forall v :: 0 <= v < USER_PAGES ==>
          to[v] == if base <= v < base + j then from[v] else old(to[v])
      {
        to[base + j] := from[base + j];
      }
    }

    /** The first `i` tables' entries have become read-only; the rest are as they were. */
    ghost predicate Shared(ptes: array<Pte>, before: seq<Pte>, i: nat)
      reads ptes
    {
      && |before| == USER_PAGES == ptes.Length
      && forall v :: 0 <= v < USER_PAGES ==>
           ptes[v] == if v < i * TABLE_ENTRIES then ReadOnly(before[v]) else before[v]
    }

    /** The first `i` tables' entries have been copied; the rest are absent. */
    ghost predicate Copied(ptes: array<Pte>, before: seq<Pte>, i: nat)
      reads ptes
    {
      && |before| == USER_PAGES == ptes.Length
      && forall v :: 0 <= v < USER_PAGES ==> ptes[v] == if v < i * TABLE_ENTRIES then ReadOnly(before[v]) else Absent
    }

    /** The child has a table wherever the parent has one among its first `i`. */
    ghost predicate TablesCopied(parent: array<Option<nat>>, child: array<Option<nat>>, i: nat)
      reads parent, child
    {
      && parent.Length == USER_TABLES == child.Length
      && (forall t :: 0 <= t < USER_TABLES ==> child[t].Some? == (t < i && parent[t].Some?))
      && (forall t :: 0 <= t < USER_TABLES && child[t].Some? ==> child[t].value < refs.Length)
    }

    /** Every count has grown by the shared entries and by the child's tables, which use free frames. */
    ghost predicate CountsRaised(refs0: seq<nat>, shared: seq<Pte>, directory: nat, tables: seq<Option<nat>>)
      reads refs
    {
      && |refs0| == refs.Length
      && forall f :: 0 <= f < refs.Length ==>
           var taken := ContextTables(f)(Some(Context(directory, tables, [], [])));
           && refs[f] == refs0[f] + Sum(shared, PteNames(f)) + taken
           && taken <= 1
           && (taken == 1 ==> refs0[f] == 0)
    }

    /** Gives the child a page table in a free frame. */
    method AllocTable(child: MemContext, i: nat, ghost refs0: seq<nat>, ghost shared: seq<Pte>) returns (ok: bool)
      requires i < child.tables.Length && child.tables[i].None?
      requires CountsRaised(refs0, shared, child.directory, child.tables[..])
      modifies refs, child.tables
      ensures ok <==> old(Spare()) > 0
      ensures ok ==> Spare() == old(Spare()) - 1
      ensures ok ==> CountsRaised(refs0, shared, child.directory, child.tables[..])
      ensures ok ==> child.tables[i].Some? && child.tables[i].value < refs.Length
      ensures forall t :: 0 <= t < child.tables.Length && t != i ==> child.tables[t] == old(child.tables[t])
    {
      var table := AllocFrame();
      if table.None? {
        return false;
      }
      AddedTableCounts(child.tables[..], i, table);
      child.tables[i] := table;
      assert child.tables[..] == old(child.tables[..])[i := table];
      return true;
    }

    /** The sharing half of a turn of MemContextClone's outer loop: no frame is taken. */
    method ShareNext(parent: MemContext, i: nat, ghost before: seq<Pte>, ghost refs0: seq<nat>,
                     ghost directory: nat, ghost tables: seq<Option<nat>>)
      requires i < USER_TABLES && Shared(parent.ptes, before, i) && AllInUse(refs0, before)
      requires CountsRaised(refs0, before[..i * TABLE_ENTRIES], directory, tables)
      modifies refs, parent.ptes
      ensures Shared(parent.ptes, before, i + 1) && Spare() == old(Spare())
      ensures CountsRaised(refs0, before[..(i + 1) * TABLE_ENTRIES], directory, tables)
    {
      ghost var block := before[i * TABLE_ENTRIES..(i + 1) * TABLE_ENTRIES];
      PrefixCounts(before, i);
      assert parent.ptes[i * TABLE_ENTRIES..(i + 1) * TABLE_ENTRIES] == block;
      ShareTable(parent.ptes, i);
      assert AllInUse(refs0, block);
      SharingTakesNone(old(refs[..]), refs[..], block);
    }

    method CopyNext(from: array<Pte>, to: array<Pte>, i: nat, ghost before: seq<Pte>)
      requires i < USER_TABLES && from != to && Shared(from, before, i + 1) && Copied(to, before, i)
      modifies to
      ensures Copied(to, before, i + 1)
    {
      CopyTable(from, to, i);
    }

    lemma NoTableNext(ptes: array<Pte>, copy: array<Pte>, tables: array<Option<nat>>, i: nat, before: seq<Pte>)
      requires i < USER_TABLES && Shared(ptes, before, i) && Copied(copy, before, i)
      requires Tabled(before, tables[..]) && tables[i].None?
      ensures Shared(ptes, before, i + 1) && Copied(copy, before, i + 1)
      ensures forall f: nat ::
                Sum(before[..(i + 1) * TABLE_ENTRIES], PteNames(f)) == Sum(before[..i * TABLE_ENTRIES], PteNames(f))
    {
      PrefixCounts(before, i);
      AbsentCounts(before[i * TABLE_ENTRIES..(i + 1) * TABLE_ENTRIES]);
    }

    /** One iteration of MemContextClone's outer loop. */
    method CloneTable(parent: MemContext, child: MemContext, i: nat, ghost before: seq<Pte>, ghost refs0: seq<nat>)
        returns (ok: bool)
      requires parent != child && parent.ptes != child.ptes && parent.tables != child.tables && i < USER_TABLES
      requires Shared(parent.ptes, before, i) && Copied(child.ptes, before, i)
      requires TablesCopied(parent.tables, child.tables, i)
      requires CountsRaised(refs0, before[..i * TABLE_ENTRIES], child.directory, child.tables[..])
      requires AllInUse(refs0, before) && Tabled(before, parent.tables[..])
      modifies refs, parent.ptes, child.ptes, child.tables
      ensures ok <==> parent.tables[i].None? || old(Spare()) > 0
      ensures ok ==> Spare() + IsTable(parent.tables[i]) == old(Spare())
      ensures ok ==> Shared(parent.ptes, before, i + 1) && Copied(child.ptes, before, i + 1)
      ensures ok ==> TablesCopied(parent.tables, child.tables, i + 1)
      ensures ok ==> CountsRaised(refs0, before[..(i + 1) * TABLE_ENTRIES], child.directory, child.tables[..])
    {
      if parent.tables[i].None? {
        NoTableNext(parent.ptes, child.ptes, parent.tables, i, before);
        return true;
      }
      ShareNext(parent, i, before, refs0, child.directory, child.tables[..]);
      ok := AllocTable(child, i, refs0, before[..(i + 1) * TABLE_ENTRIES]);
      if ok {
        CopyNext(parent.ptes, child.ptes, i, before);
      }
    }

    /** MemContextInit: a blank context, or not ok when the kernel panics, out of frames. */
    method InitContext() returns (ok: bool, ghost directory: nat)
      requires Valid()
      modifies this, refs
      ensures ok <==> old(Spare()) > 0
      ensures ok ==> Enabled(old(View()), Init(directory))
      ensures ok ==> View() == Step(old(View()), Init(directory))
      ensures ok ==> Valid()
    {
      ghost var s := View();
      var frame := AllocFrame();
      if frame.None? {
        return false, 0;
      }
      var blank := new MemContext(frame.value, []);
      contexts := contexts + [blank];
      directory := frame.value;
      ghost var next := Step(s, Init(directory));
      assert blank.View() == next.contexts[|s.contexts|].value;
      assert View().contexts == next.contexts;
      StepKeepsInv(s, Init(directory));
      return true, directory;
    }

    /** The outer loop of MemContextClone. */
    method CloneTables(parent: MemContext, child: MemContext, ghost before: seq<Pte>, ghost refs0: seq<nat>)
        returns (ok: bool)
      requires parent != child && parent.ptes != child.ptes && parent.tables != child.tables
      requires Shared(parent.ptes, before, 0) && Copied(child.ptes, before, 0)
      requires TablesCopied(parent.tables, child.tables, 0)
      requires CountsRaised(refs0, [], child.directory, child.tables[..])
      requires AllInUse(refs0, before) && Tabled(before, parent.tables[..])
      modifies refs, parent.ptes, child.ptes, child.tables
      ensures ok <==> old(Spare()) >= Sum(parent.tables[..], IsTable)
      ensures ok ==> Shared(parent.ptes, before, USER_TABLES) && Copied(child.ptes, before, USER_TABLES)
      ensures ok ==> TablesCopied(parent.tables, child.tables, USER_TABLES)
      ensures ok ==> CountsRaised(refs0, before, child.directory, child.tables[..])
    {
      assert before[..0] == [];
      var i := 0;
      while i < USER_TABLES
        invariant i <= USER_TABLES
        invariant Shared(parent.ptes, before, i) && Copied(child.ptes, before, i)
        invariant TablesCopied(parent.tables, child.tables, i)
        invariant CountsRaised(refs0, before[..i * TABLE_ENTRIES], child.directory, child.tables[..])
        invariant Spare() + Sum(parent.tables[..i], IsTable) == old(Spare())
      {
        OneMoreTable(parent.tables[..], i);
        ok := CloneTable(parent, child, i, before, refs0);
        if !ok {
          return false;
        }
        i := i + 1;
      }
      assert parent.tables[..USER_TABLES] == parent.tables[..] && before[..USER_PAGES] == before;
      return true;
    }

    /** MemContextClone up to the point where the new context is complete. */
    method BuildClone(parent: MemContext) returns (ok: bool, child: MemContext)
      requires parent.ptes.Length == USER_PAGES && parent.tables.Length == USER_TABLES
      requires AllInUse(refs[..], parent.ptes[..]) && Tabled(parent.ptes[..], parent.tables[..])
      modifies refs, parent.ptes
      ensures ok <==> old(Spare()) >= 1 + Sum(parent.tables[..], IsTable)
      ensures fresh(child) && fresh(child.ptes) && fresh(child.tables)
      ensures child.regions == parent.regions
      ensures ok ==> child.directory < refs.Length
      ensures ok ==> parent.ptes[..] == child.ptes[..] == AllReadOnly(old(parent.ptes[..]))
      ensures ok ==> TablesCopied(parent.tables, child.tables, USER_TABLES)
      ensures ok ==> CountsRaised(old(refs[..]), old(parent.ptes[..]), child.directory, child.tables[..])
    {
      ghost var before, refs0 := parent.ptes[..], refs[..];
      var frame := AllocFrame();
      child := new MemContext(if frame.Some? then frame.value else 0, parent.regions);
      if frame.None? {
        return false, child;
      }
      BlankTableCounts(child.tables[..]);
      ok := CloneTables(parent, child, before, refs0);
    }

    /** All is as a clone of context `c` leaves it, but for the new context, which has yet to join the others. */
    ghost predicate Cloning(s: State, c: nat, child: MemContext)
      reads this, refs, memory, Tables(), child, child.tables, child.ptes
    {
      var directory, tables := child.directory, child.tables[..];
      && Inv(s) && Live(s, c) && Enabled(s, AddressSpaceRuns.Clone(c, directory, tables))
      && Apart() && ApartFrom(child)
      && var next := Cloned(s, c, directory, tables);
      && Some(child.View()) == next.contexts[|s.contexts|]
      && View() == State(next.contexts[..|s.contexts|], next.refs, s.memory, s.pinned)
    }

    method Adopt(child: MemContext, ghost s: State, ghost c: nat)
      requires Cloning(s, c, child)
      modifies this`contexts
      ensures Enabled(s, AddressSpaceRuns.Clone(c, child.directory, child.tables[..]))
      ensures Valid() && View() == Step(s, AddressSpaceRuns.Clone(c, child.directory, child.tables[..]))
    {
      StepKeepsInv(s, AddressSpaceRuns.Clone(c, child.directory, child.tables[..]));
      contexts := contexts + [child];
      assert View().contexts == Cloned(s, c, child.directory, child.tables[..]).contexts;
    }

    lemma BuiltIsCloning(s: State, c: nat, parent: MemContext, child: MemContext)
      requires Inv(s) && Live(s, c) && Apart() && ApartFrom(child)
      requires c < |contexts| == |s.contexts| && contexts[c] == parent
      requires forall i :: 0 <= i < |contexts| && i != c ==> ViewOf(contexts[i]) == s.contexts[i]
      requires parent.View() == s.contexts[c].value.(ptes := AllReadOnly(s.contexts[c].value.ptes))
      requires child.regions == parent.regions && child.ptes[..] == parent.ptes[..] && child.directory < refs.Length
      requires TablesCopied(parent.tables, child.tables, USER_TABLES) && memory[..] == s.memory && pinned == s.pinned
      requires CountsRaised(s.refs, s.contexts[c].value.ptes, child.directory, child.tables[..])
      ensures Cloning(s, c, child)
    {
      var next := Cloned(s, c, child.directory, child.tables[..]);
      assert refs[..] == next.refs;
      assert View().contexts == next.contexts[..|s.contexts|];
    }

    /** MemContextClone before the new context joins the others. */
    method StartClone(c: nat) returns (ok: bool, child: MemContext)
      requires Valid() && c < |contexts| && contexts[c] != null
      modifies refs, Tables()
      ensures ok <==> old(Spare()) >= 1 + Sum(old(contexts[c].tables[..]), IsTable)
      ensures ok ==> Cloning(old(View()), c, child)
    {
      ghost var s := View();
      var parent := contexts[c];
      assert s.contexts[c] == Some(parent.View());
      ParentEntries(s, c);
      EntriesInUse(s, c);
      ok, child := BuildClone(parent);
      if ok {
        BuiltIsCloning(s, c, parent, child);
      }
    }

    /**
     MemContextClone of context `c`; not ok means the kernel panicked, out of frames, and this happens
     exactly if there are fewer than one for the directory and one for each table.
     */
    method Clone(c: nat) returns (ok: bool, ghost directory: nat, ghost tables: seq<Option<nat>>)
      requires Valid() && c < |contexts| && contexts[c] != null
      modifies this, refs, Tables()
      ensures ok <==> old(Spare()) >= 1 + Sum(old(contexts[c].tables[..]), IsTable)
      ensures ok ==> Enabled(old(View()), AddressSpaceRuns.Clone(c, directory, tables))
      ensures ok ==> View() == Step(old(View()), AddressSpaceRuns.Clone(c, directory, tables))
      ensures ok ==> Valid()
    {
      ghost var s := View();
      var child;
      ok, child := StartClone(c);
      directory, tables := child.directory, child.tables[..];
      if ok {
        Adopt(child, s, c);
      }
    }

    /** The inner loop of MemContextDelete: one table's pages lose a reference. */
    method DropTable(ptes: array<Pte>, i: nat)
      requires i < USER_TABLES && ptes.Length == USER_PAGES
      requires forall v :: 0 <= v < USER_PAGES && ptes[v].Present? ==> ptes[v].frame < refs.Length
      modifies refs
      ensures forall f :: 0 <= f < refs.Length ==>
        refs[f] == Minus(old(refs[f]), Sum(ptes[i * TABLE_ENTRIES..(i + 1) * TABLE_ENTRIES], PteNames(f)))
    {
      var base := i * TABLE_ENTRIES;
      ghost var block := ptes[base..base + TABLE_ENTRIES];
      for j := 0 to TABLE_ENTRIES
        invariant forall f :: 0 <= f < refs.Length ==> refs[f] == Minus(old(refs[f]), Sum(block[..j], PteNames(f)))
      {
        assert block[..j + 1][..j] == block[..j] && block[j] == ptes[base + j];
        if ptes[base + j].Present? {
          var f := ptes[base + j].frame;
          if refs[f] > 0 {
            refs[f] := refs[f] - 1;
          }
        }
      }
      assert block[..TABLE_ENTRIES] == block;
    }

    /** How far MemContextDelete has come after `i` directory entries. */
    ghost predicate CountsLowered(refs0: seq<nat>, ptes: seq<Pte>, tables: seq<Option<nat>>)
      reads refs
    {
      && |refs0| == refs.Length
      && forall f :: 0 <= f < refs.Length ==>
           refs0[f] == refs[f] + Sum(ptes, PteNames(f)) + Sum(tables, TableNames(f))
    }

    /** One iteration of MemContextDelete's outer loop. */
    method DeleteTable(ctx: MemContext, i: nat, ghost refs0: seq<nat>)
      requires ctx.ptes.Length == USER_PAGES && ctx.tables.Length == USER_TABLES && i < USER_TABLES
      requires Droppable(ctx.View(), refs0)
      requires CountsLowered(refs0, ctx.ptes[..i * TABLE_ENTRIES], ctx.tables[..i])
      modifies refs
      ensures CountsLowered(refs0, ctx.ptes[..(i + 1) * TABLE_ENTRIES], ctx.tables[..i + 1])
    {
      ghost var block := ctx.ptes[i * TABLE_ENTRIES..(i + 1) * TABLE_ENTRIES];
      PrefixCounts(ctx.ptes[..], i);
      PrefixesBounded(ctx.View(), refs0, i);
      assert ctx.ptes[..][..(i + 1) * TABLE_ENTRIES] == ctx.ptes[..(i + 1) * TABLE_ENTRIES];
      assert ctx.ptes[..][..i * TABLE_ENTRIES] == ctx.ptes[..i * TABLE_ENTRIES];
      assert ctx.ptes[..][i * TABLE_ENTRIES..(i + 1) * TABLE_ENTRIES] == block;
      assert ctx.tables[..][..i] == ctx.tables[..i] && ctx.tables[..i + 1] == ctx.tables[..i] + [ctx.tables[i]];
      if ctx.tables[i].None? {
        AbsentCounts(block);
      } else {
        DropTable(ctx.ptes, i);
        refs[ctx.tables[i].value] := 0;
      }
    }

    /** MemContextDelete's loops over the tables, and the freeing of the directory. */
    method DropContext(ctx: MemContext)
      requires Droppable(ctx.View(), refs[..])
      modifies refs
      ensures refs[..] == LoweredRefs(old(refs[..]), Some(ctx.View()))
    {
      ghost var refs0 := refs[..];
      assert ctx.ptes[..0] == [] && ctx.tables[..0] == [];
      var i := 0;
      while i < USER_TABLES
        invariant i <= USER_TABLES
        invariant CountsLowered(refs0, ctx.ptes[..i * TABLE_ENTRIES], ctx.tables[..i])
      {
        DeleteTable(ctx, i, refs0);
        i := i + 1;
      }
      assert ctx.ptes[..USER_PAGES] == ctx.ptes[..] && ctx.tables[..USER_TABLES] == ctx.tables[..];
      refs[ctx.directory] := 0;
    }

    /**
     MemContextDelete: refused for the directory in CR3, otherwise the context's frames are released.
     */
    method Delete(c: nat, cr3: nat) returns (deleted: bool)
      requires Valid() && c < |contexts| && contexts[c] != null
      modifies this, refs
      ensures deleted <==> old(contexts[c].directory) != cr3
      ensures View() == if deleted then Step(old(View()), AddressSpaceRuns.Delete(c)) else old(View())
      ensures Valid()
    {
      var ctx := contexts[c];
      if ctx.directory == cr3 {
        return false;
      }
      ghost var s := View();
      assert s.contexts[c] == Some(ctx.View());
      ContextDroppable(s, c);
      DropContext(ctx);
      contexts := contexts[c := null];
      assert View().contexts == Deleted(s, c).contexts;
      StepKeepsInv(s, AddressSpaceRuns.Delete(c));
      return true;
    }

    /** MemIntUnmapUserPageAndFree. */
    method UnmapPage(c: nat, v: nat)
      requires Valid() && c < |contexts| && contexts[c] != null && v < USER_PAGES
      modifies refs, contexts[c].ptes
      ensures View() == Unmap(old(View()), c, v)
      ensures Valid()
    {
      ghost var s := View();
      var ctx := contexts[c];
      assert s.contexts[c] == Some(ctx.View());
      ParentEntries(s, c);
      UnmapKeepsInv(s, c, v);
      if ctx.ptes[v].Present? {
        var f := ctx.ptes[v].frame;
        ctx.ptes[v] := Absent;
        if refs[f] > 0 {
          refs[f] := refs[f] - 1;
        }
        assert ctx.ptes[..] == s.contexts[c].value.ptes[v := Absent];
        assert View().contexts == Unmap(s, c, v).contexts;
      }
    }

    /** The loop of MemRegionResize. */
    method UnmapRange(c: nat, lo: nat, hi: nat)
      requires Valid() && c < |contexts| && contexts[c] != null && lo <= hi <= USER_PAGES
      modifies refs, contexts[c].ptes
      ensures View() == UnmapPages(old(View()), c, lo, hi)
      ensures Valid()
    {
      ghost var s := View();
      assert s.contexts[c] == Some(contexts[c].View());
      var v := lo;
      while v < hi
        invariant lo <= v <= hi
        invariant Valid()
        invariant UnmapPages(s, c, lo, hi) == UnmapPages(View(), c, v, hi)
      {
        UnmapPage(c, v);
        v := v + 1;
      }
    }

    /** Writes back a context's region list. */
    method SetRegions(c: nat, regions: seq<Region>)
      requires Valid() && c < |contexts| && contexts[c] != null && Inv(WithRegions(View(), c, regions))
      modifies contexts[c]
      ensures View() == WithRegions(old(View()), c, regions) && contexts[c].regions == regions
      ensures Valid()
    {
      ghost var s := View();
      assert s.contexts[c] == Some(contexts[c].View());
      contexts[c].regions := regions;
      assert View().contexts == WithRegions(s, c, regions).contexts;
    }

    /** MemRegionResize to a smaller page-aligned length: the pages cut off are unmapped one by one. */
    method ShrinkRegion(c: nat, i: nat, newLength: nat)
      requires Valid() && c < |contexts| && contexts[c] != null && i < |contexts[c].regions|
      requires newLength < contexts[c].regions[i].length && newLength % PAGE_SIZE == 0
      modifies refs, contexts[c], contexts[c].ptes
      ensures Enabled(old(View()), Shrink(c, i, newLength))
      ensures View() == Step(old(View()), Shrink(c, i, newLength))
      ensures Valid()
    {
      ghost var s := View();
      var regions := contexts[c].regions;
      var lo, hi := (regions[i].start + newLength) / PAGE_SIZE, regions[i].End() / PAGE_SIZE;
      assert s.contexts[c] == Some(contexts[c].View());
      ShrinkUnfolds(s, c, i, newLength, lo, hi);
      UnmapRange(c, lo, hi);
      SetRegions(c, Resized(regions, i, newLength));
    }

    /** MemRegionResize to a length that is not smaller, where it leaves room. */
    method ExtendRegion(c: nat, i: nat, newLength: nat)
      requires Valid() && c < |contexts| && contexts[c] != null && i < |contexts[c].regions|
      requires contexts[c].regions[i].length <= newLength < WORD && LeavesRoom(contexts[c].regions, i, newLength)
      modifies contexts[c]
      ensures Enabled(old(View()), Extend(c, i, newLength))
      ensures View() == Step(old(View()), Extend(c, i, newLength))
      ensures contexts[c].regions ==
        var before := old(contexts[c].regions);
        if newLength % PAGE_SIZE != 0 || before[i].start + newLength > KERNEL_BASE then before
        else before[i := Region(before[i].start, newLength, before[i].flags)]
      ensures Valid()
    {
      ghost var s := View();
      assert s.contexts[c] == Some(contexts[c].View());
      ExtendKeepsInv(s, c, i, newLength);
      GrowthSetsLength(contexts[c].regions, i, newLength);
      SetRegions(c, Resized(contexts[c].regions, i, newLength));
    }

    /** MemRegionDelete: the region is shrunk to nothing and leaves the list. */
    method DeleteRegion(c: nat, i: nat)
      requires Valid() && c < |contexts| && contexts[c] != null && i < |contexts[c].regions|
      modifies refs, contexts[c], contexts[c].ptes
      ensures Enabled(old(View()), RemoveRegion(c, i))
      ensures View() == Step(old(View()), RemoveRegion(c, i))
      ensures Valid()
    {
      ghost var s := View();
      assert s.contexts[c] == Some(contexts[c].View());
      StepKeepsInv(s, RemoveRegion(c, i));
      if contexts[c].regions[i].length > 0 {
        ShrinkRegion(c, i, 0);
      }
      ghost var emptied := View();
      assert emptied.contexts[c] == Some(contexts[c].View());
      RemovalUnfolds(s, c, i, emptied, contexts[c].regions);
      SetRegions(c, contexts[c].regions[..i] + contexts[c].regions[i + 1..]);
    }

    /** MemRegionCreate: the region enters the list, or is refused and nothing changes. */
    method CreateRegion(c: nat, start: nat, length: nat, flags: Flags, tailStart: nat) returns (place: Option<nat>)
      requires Valid() && c < |contexts| && contexts[c] != null
      requires start < WORD && length < WORD && tailStart < WORD
      modifies contexts[c]
      ensures place.Some? <==> Acceptable(old(contexts[c].regions), Region(start, length, flags), tailStart)
      ensures place.None? ==> View() == old(View())
      ensures place.Some? ==>
        var before, after := old(contexts[c].regions), contexts[c].regions;
        && place.value <= |before| && |after| == |before| + 1 && after[place.value] == Region(start, length, flags)
        && after[..place.value] == before[..place.value] && after[place.value + 1..] == before[place.value..]
      ensures place.Some? ==> Enabled(old(View()), AddRegion(c, place.value, Region(start, length, flags)))
      ensures place.Some? ==> View() == Step(old(View()), AddRegion(c, place.value, Region(start, length, flags)))
      ensures Valid()
    {
      ghost var s := View();
      assert s.contexts[c] == Some(contexts[c].View());
      place := Regions.Create(contexts[c].regions, start, length, flags, tailStart);
      assert View() == s;
      if place.Some? {
        var after := Inserted(contexts[c].regions, place.value, Region(start, length, flags));
        AddRegionKeepsInv(s, c, place.value, Region(start, length, flags));
        assert Step(s, AddRegion(c, place.value, Region(start, length, flags))) == WithRegions(s, c, after);
        InsertedList(contexts[c].regions, place.value, start, length, flags);
        SetRegions(c, after);
      }
    }

    /** MemIntMapUserPage with a page table allocated on demand, for a region with an access flag. */
    method MapZeroed(c: nat, v: nat, frame: nat, writable: bool) returns (ok: bool, ghost table: nat)
      requires c < |contexts| && contexts[c] != null && v < USER_PAGES && frame < refs.Length == memory.Length
      requires contexts[c].ptes.Length == USER_PAGES && contexts[c].tables.Length == USER_TABLES
      modifies refs, memory, contexts[c].ptes, contexts[c].tables
      ensures ok <==> old(contexts[c].tables[v / TABLE_ENTRIES]).Some? || old(Spare()) > 0
      ensures ok ==> contexts[c].View() == Mapped(old(contexts[c].View()), v, Present(frame, writable), table)
      ensures ok ==> |memory[frame]| == PAGE_SIZE && forall i :: 0 <= i < PAGE_SIZE ==> memory[frame][i] == 0
      ensures ok ==> memory[..] == old(memory[..])[frame := memory[frame]]
      ensures ok && old(contexts[c].tables[v / TABLE_ENTRIES]).Some? ==> refs[..] == old(refs[..])
      ensures ok && old(contexts[c].tables[v / TABLE_ENTRIES]).None? ==>
        table < refs.Length && old(refs[table]) == 0 && refs[..] == old(refs[..])[table := 1]
    {
      var ctx := contexts[c];
      table := 0;
      if ctx.tables[v / TABLE_ENTRIES].None? {
        var t := AllocFrame();
        if t.None? {
          return false, table;
        }
        table := t.value;
        ctx.tables[v / TABLE_ENTRIES] := t;
      }
      ctx.ptes[v] := Present(frame, writable);
      memory[frame] := ZeroPage();
      return true, table;
    }

    /** The demand-paging branch of MemPageFaultHandler. */
    method DemandFault(c: nat, v: nat, writable: bool) returns (ok: bool, ghost frame: nat, ghost table: nat)
      requires Valid() && c < |contexts| && contexts[c] != null && v < USER_PAGES
      requires contexts[c].tables.Length == USER_TABLES
      modifies refs, memory, contexts[c].ptes, contexts[c].tables
      ensures ok <==> old(Spare()) >= 2 - IsTable(old(contexts[c].tables[v / TABLE_ENTRIES]))
      ensures ok ==> Free(old(View()), frame) && Entry(View(), c, v) == Present(frame, writable)
      ensures ok ==> frame < memory.Length
      ensures ok ==> |memory[frame]| == PAGE_SIZE && forall i :: 0 <= i < PAGE_SIZE ==> memory[frame][i] == 0
      ensures ok && old(contexts[c].tables[v / TABLE_ENTRIES]).None? ==> Free(old(View()), table) && table != frame
      ensures ok ==> View() == DemandZero(old(View()), c, v, writable, frame, table)
    {
      ghost var s := View();
      var ctx := contexts[c];
      assert s.contexts[c] == Some(ctx.View());
      ParentEntries(s, c);
      var f := AllocFrame();
      frame, table := 0, 0;
      if f.None? {
        return false, frame, table;
      }
      frame := f.value;
      ok, table := MapZeroed(c, v, f.value, writable);
      if ok {
        assert memory[frame] == ZeroPage();
        assert View().contexts == DemandZero(s, c, v, writable, frame, table).contexts;
      }
    }

    /** The copy-on-write branch of MemPageFaultHandler. */
    method CopyOnWriteFault(c: nat, v: nat) returns (ok: bool, ghost frame: nat)
      requires Valid() && c < |contexts| && contexts[c] != null && v < USER_PAGES
      requires contexts[c].ptes.Length == USER_PAGES && contexts[c].ptes[v].Present?
      requires contexts[c].ptes[v].frame < refs.Length
      modifies refs, memory, contexts[c].ptes
      ensures ok <==> old(refs[contexts[c].ptes[v].frame]) <= 1 || old(Spare()) > 0
      ensures ok && old(refs[contexts[c].ptes[v].frame]) > 1 ==> Free(old(View()), frame)
      ensures ok ==> View() == CopyOnWrite(old(View()), c, v, frame)
    {
      ghost var s := View();
      var ctx := contexts[c];
      assert s.contexts[c] == Some(ctx.View());
      var shared := ctx.ptes[v].frame;
      frame := 0;
      if refs[shared] > 1 {
        var f := AllocFrame();
        if f.None? {
          return false, frame;
        }
        frame := f.value;
        memory[f.value] := memory[shared];
        refs[shared] := refs[shared] - 1;
        ctx.ptes[v] := Present(f.value, true);
      } else {
        ctx.ptes[v] := Present(shared, true);
      }
      assert ctx.ptes[..] == CopyOnWrite(s, c, v, frame).contexts[c].value.ptes;
      assert View().contexts == CopyOnWrite(s, c, v, frame).contexts;
      return true, frame;
    }

    /** MemPageFaultHandler for a user address whose region, if any, has an access flag. */
    method HandleFault(c: nat, address: nat)
        returns (outcome: Outcome, ghost r: nat, ghost frame: nat, ghost table: nat)
      requires Valid() && c < |contexts| && contexts[c] != null && address < KERNEL_BASE
      requires forall i :: 0 <= i < |contexts[c].regions| && contexts[c].regions[i].Contains(address) ==>
        contexts[c].regions[i].flags.Accessible()
      modifies refs, memory, contexts[c].ptes, contexts[c].tables
      ensures outcome.Handled? ==> Enabled(old(View()), Fault(c, address, r, frame, table))
      ensures outcome.Handled? ==> View() == Step(old(View()), Fault(c, address, r, frame, table))
      ensures outcome.Panicked? <==> !outcome.Segv? && old(Spare()) < FramesNeeded(old(View()), c, address / PAGE_SIZE)
      ensures outcome.Segv? ==> View() == old(View())
      ensures outcome.Segv? ==> forall i, f, t :: !Enabled(old(View()), Fault(c, address, i, f, t))
      ensures outcome.Segv? <==> Denied(old(contexts[c].regions), Entry(old(View()), c, address / PAGE_SIZE), address)
      ensures !outcome.Panicked? ==> Valid()
    {
      ghost var s := View();
      var ctx := contexts[c];
      assert s.contexts[c] == Some(ctx.View());
      ParentEntries(s, c);
      r, frame, table := 0, 0, 0;
      var v := address / PAGE_SIZE;
      var found := Regions.Find(ctx.regions, address);
      assert View() == s;
      if found.None? {
        return Segv, r, frame, table;
      }
      r := found.value;
      FaultPageCovered(s, c, address, r);
      OneRegionDecides(ctx.regions, Entry(s, c, v), address, r);
      var ok;
      if ctx.ptes[v].Present? {
        if ctx.ptes[v].writable || !ctx.regions[found.value].flags.writable {
          return Segv, r, frame, table;
        }
        ok, frame := CopyOnWriteFault(c, v);
      } else {
        ok, frame, table := DemandFault(c, v, ctx.regions[found.value].flags.writable);
      }
      if !ok {
        return Panicked, r, frame, table;
      }
      StepKeepsInv(s, Fault(c, address, r, frame, table));
      return Handled, r, frame, table;
    }
  }

  datatype Outcome = Handled | Segv | Panicked

  function IsTable(table: Option<nat>): nat {
    if table.Some? then 1 else 0
  }

  /** How many frames a fault on a page uses up: one for a copy, or one for the page and one for a missing table. */
  ghost function FramesNeeded(s: State, c: nat, v: nat): nat {
    match Entry(s, c, v)
    case Present(frame, _) => if frame < |s.refs| && s.refs[frame] > 1 then 1 else 0
    case Absent =>
      if Live(s, c) && v / TABLE_ENTRIES < |s.contexts[c].value.tables| then
        2 - IsTable(s.contexts[c].value.tables[v / TABLE_ENTRIES])
      else 0
  }

  /** Every present entry is in a table. */
  ghost predicate Tabled(ptes: seq<Pte>, tables: seq<Option<nat>>) {
    |tables| == USER_TABLES && |ptes| == USER_PAGES &&
    forall v :: 0 <= v < USER_PAGES && ptes[v].Present? ==> tables[v / TABLE_ENTRIES].Some?
  }

  /** The frames the entries name are in use. */
  ghost predicate AllInUse(refs: seq<nat>, ptes: seq<Pte>) {
    forall v :: 0 <= v < |ptes| && ptes[v].Present? ==> ptes[v].frame < |refs| && refs[ptes[v].frame] > 0
  }

  lemma EntriesInUse(s: State, c: nat)
    requires Inv(s) && Live(s, c)
    ensures AllInUse(s.refs, s.contexts[c].value.ptes)
  {
    var ctx := s.contexts[c].value;
    forall v | 0 <= v < |ctx.ptes| && ctx.ptes[v].Present?
      ensures ctx.ptes[v].frame < |s.refs| && s.refs[ctx.ptes[v].frame] > 0
    {
      var f := ctx.ptes[v].frame;
      assert PteValid(ctx, v, |s.refs|) && CountsAgree(s, f);
      SumAtLeast(ctx.ptes, v, PteNames(f));
      SumAtLeast(s.contexts, c, ContextPtes(f));
    }
  }

  /** More references to frames in use leave the free ones free. */
  lemma SharingTakesNone(before: seq<nat>, after: seq<nat>, block: seq<Pte>)
    requires |before| == |after| && AllInUse(before, block)
    requires forall f :: 0 <= f < |after| ==> after[f] == before[f] + Sum(block, PteNames(f))
    ensures Physical.FreeCount(after) == Physical.FreeCount(before)
  {
    forall f | 0 <= f < |after|
      ensures Physical.IsFree(after[f]) == Physical.IsFree(before[f])
    {
      if before[f] == 0 {
        SumOfZeros(block, PteNames(f));
      }
    }
    SumSame(after, Physical.IsFree, before, Physical.IsFree);
  }

  lemma OneMoreTable(tables: seq<Option<nat>>, i: nat)
    requires i < |tables|
    ensures Sum(tables[..i + 1], IsTable) == Sum(tables[..i], IsTable) + IsTable(tables[i])
    ensures Sum(tables[..i + 1], IsTable) <= Sum(tables, IsTable)
  {
    assert tables[..i + 1] == tables[..i] + [tables[i]];
    SumAppend(tables[..i], tables[i], IsTable);
    SumPrefix(tables, i + 1, IsTable);
  }

  /** Once a region is empty, taking it out of the list completes its removal. */
  lemma RemovalUnfolds(s: State, c: nat, i: nat, emptied: State, regions: seq<Region>)
    requires Inv(s) && RegionOf(s, c, i) && Live(emptied, c) && emptied.contexts[c].value.regions == regions
    requires emptied == if s.contexts[c].value.regions[i].length == 0 then s else Shrunk(s, c, i, 0)
    requires Inv(Step(s, RemoveRegion(c, i)))
    ensures |regions| == |s.contexts[c].value.regions|
    ensures Step(s, RemoveRegion(c, i)) == WithRegions(emptied, c, regions[..i] + regions[i + 1..])
    ensures Inv(WithRegions(emptied, c, regions[..i] + regions[i + 1..]))
  {
    var was := s.contexts[c].value.regions;
    if was[i].length > 0 {
      ShrinkSetsLength(was, i, 0);
      assert regions == was[i := was[i].(length := 0)];
    }
    assert regions[..i] + regions[i + 1..] == was[..i] + was[i + 1..];
  }

  lemma ShrinkUnfolds(s: State, c: nat, i: nat, newLength: nat, lo: nat, hi: nat)
    requires Inv(s) && RegionOf(s, c, i)
    requires newLength < s.contexts[c].value.regions[i].length && newLength % PAGE_SIZE == 0
    requires lo == (s.contexts[c].value.regions[i].start + newLength) / PAGE_SIZE
    requires hi == s.contexts[c].value.regions[i].End() / PAGE_SIZE
    ensures lo <= hi <= USER_PAGES
    ensures Enabled(s, Shrink(c, i, newLength))
    ensures Step(s, Shrink(c, i, newLength))
         == WithRegions(UnmapPages(s, c, lo, hi), c, Resized(s.contexts[c].value.regions, i, newLength))
    ensures Inv(Step(s, Shrink(c, i, newLength)))
  {
    var regions := s.contexts[c].value.regions;
    assert ValidRange(regions[i].start, regions[i].length);
    ShrunkKeepsInv(s, c, i, newLength);
  }

  /** A context's references are all counted, and its tables are the only users of their frames. */
  ghost predicate Droppable(ctx: Context, refs: seq<nat>) {
    && |ctx.ptes| == USER_PAGES && |ctx.tables| == USER_TABLES
    && (forall v :: 0 <= v < USER_PAGES && ctx.ptes[v].Present? ==>
          ctx.ptes[v].frame < |refs| && ctx.tables[v / TABLE_ENTRIES].Some?)
    && (forall t :: 0 <= t < USER_TABLES && ctx.tables[t].Some? ==> ctx.tables[t].value < |refs|)
    && ctx.directory < |refs|
    && (forall f :: 0 <= f < |refs| ==> refs[f] >= ContextPtes(f)(Some(ctx)) + ContextTables(f)(Some(ctx)))
    && (forall f :: 0 <= f < |refs| && ContextTables(f)(Some(ctx)) > 0 ==> refs[f] == 1)
  }

  lemma ContextDroppable(s: State, c: nat)
    requires Inv(s) && Live(s, c)
    ensures Droppable(s.contexts[c].value, s.refs)
  {
    ParentEntries(s, c);
    forall f | 0 <= f < |s.refs|
      ensures s.refs[f] >= ContextPtes(f)(s.contexts[c]) + ContextTables(f)(s.contexts[c])
      ensures ContextTables(f)(s.contexts[c]) > 0 ==> s.refs[f] == 1
    {
      assert CountsAgree(s, f);
      SumAtLeast(s.contexts, c, ContextPtes(f));
      SumAtLeast(s.contexts, c, ContextTables(f));
    }
  }

  /** What has been dropped after `i + 1` tables is at most what the context holds. */
  lemma PrefixesBounded(ctx: Context, refs: seq<nat>, i: nat)
    requires Droppable(ctx, refs) && i < USER_TABLES
    ensures forall f :: 0 <= f < |refs| ==>
      refs[f] >= Sum(ctx.ptes[..(i + 1) * TABLE_ENTRIES], PteNames(f)) + Sum(ctx.tables[..i + 1], TableNames(f))
    ensures forall f: nat ::
              Sum(ctx.tables[..i + 1], TableNames(f))
              == Sum(ctx.tables[..i], TableNames(f)) + TableNames(f)(ctx.tables[i])
    ensures ctx.tables[i].Some? ==> refs[ctx.tables[i].value] == 1
  {
    assert ctx.tables[..i + 1] == ctx.tables[..i] + [ctx.tables[i]];
    forall f: nat
      ensures Sum(ctx.tables[..i + 1], TableNames(f))
           == Sum(ctx.tables[..i], TableNames(f)) + TableNames(f)(ctx.tables[i])
    {
      SumAppend(ctx.tables[..i], ctx.tables[i], TableNames(f));
    }
    forall f | 0 <= f < |refs|
      ensures refs[f] >= Sum(ctx.ptes[..(i + 1) * TABLE_ENTRIES], PteNames(f)) + Sum(ctx.tables[..i + 1], TableNames(f))
    {
      SumPrefix(ctx.ptes, (i + 1) * TABLE_ENTRIES, PteNames(f));
      SumPrefix(ctx.tables, i + 1, TableNames(f));
    }
    if ctx.tables[i].Some? {
      SumAtLeast(ctx.tables, i, TableNames(ctx.tables[i].value));
    }
  }

  /** What the invariant says about the entries of one context. */
  lemma ParentEntries(s: State, c: nat)
    requires Inv(s) && Live(s, c)
    ensures |s.contexts[c].value.ptes| == USER_PAGES && |s.contexts[c].value.tables| == USER_TABLES
    ensures forall v :: 0 <= v < USER_PAGES && s.contexts[c].value.ptes[v].Present? ==>
      s.contexts[c].value.ptes[v].frame < |s.refs| && s.contexts[c].value.tables[v / TABLE_ENTRIES].Some?
  {
    var ctx := s.contexts[c].value;
    forall v | 0 <= v < USER_PAGES && ctx.ptes[v].Present?
      ensures ctx.ptes[v].frame < |s.refs| && ctx.tables[v / TABLE_ENTRIES].Some?
    {
      assert PteValid(ctx, v, |s.refs|);
    }
  }

  lemma BlankTableCounts(tables: seq<Option<nat>>)
    requires forall t :: 0 <= t < |tables| ==> tables[t].None?
    ensures forall f: nat :: Sum(tables, TableNames(f)) == 0
  {
    forall f: nat
      ensures Sum(tables, TableNames(f)) == 0
    {
      SumOfZeros(tables, TableNames(f));
    }
  }

  lemma PrefixCounts(before: seq<Pte>, i: nat)
    requires |before| == USER_PAGES && i < USER_TABLES
    ensures forall f: nat ::
              Sum(before[..(i + 1) * TABLE_ENTRIES], PteNames(f)) ==
              Sum(before[..i * TABLE_ENTRIES], PteNames(f))
              + Sum(before[i * TABLE_ENTRIES..(i + 1) * TABLE_ENTRIES], PteNames(f))
  {
    var block := before[i * TABLE_ENTRIES..(i + 1) * TABLE_ENTRIES];
    forall f: nat
      ensures Sum(before[..(i + 1) * TABLE_ENTRIES], PteNames(f)) ==
              Sum(before[..i * TABLE_ENTRIES], PteNames(f)) + Sum(block, PteNames(f))
    {
      SumConcat(before[..i * TABLE_ENTRIES], block, PteNames(f));
      assert before[..i * TABLE_ENTRIES] + block == before[..(i + 1) * TABLE_ENTRIES];
    }
  }

  lemma AbsentCounts(block: seq<Pte>)
    requires forall v :: 0 <= v < |block| ==> block[v].Absent?
    ensures forall f: nat :: Sum(block, PteNames(f)) == 0
  {
    forall f: nat
      ensures Sum(block, PteNames(f)) == 0
    {
      SumOfZeros(block, PteNames(f));
    }
  }

  lemma AddedTableCounts(tables: seq<Option<nat>>, i: nat, table: Option<nat>)
    requires i < |tables| && tables[i].None?
    ensures forall f: nat :: Sum(tables[i := table], TableNames(f)) == Sum(tables, TableNames(f)) + TableNames(f)(table)
  {
    forall f: nat
      ensures Sum(tables[i := table], TableNames(f)) == Sum(tables, TableNames(f)) + TableNames(f)(table)
    {
      SumUpdate(tables, i, table, TableNames(f));
    }
  }
}
