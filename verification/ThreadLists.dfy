/**
 The scheduler's lists at heap level: the run queue, the reaper's list and the wait queues, threaded
 through entries embedded in the threads. One entry serves the run queue and the reaper's list, so
 that a thread is on at most one of the two is what keeps both intact.
 */
module ThreadLists {
  import opened Common
  import opened Lists
  import opened Scheduling

  /** The entries of the given threads, in order. */
  function Entries(entries: map<Tid, ListHead>, ts: seq<Tid>): (r: seq<ListHead>)
    requires forall i :: 0 <= i < |ts| ==> ts[i] in entries
    ensures |r| == |ts|
  {
    seq(|ts|, i requires 0 <= i < |ts| => entries[ts[i]])
  }

  ghost predicate Known(entries: map<Tid, ListHead>, ts: seq<Tid>) {
    forall i :: 0 <= i < |ts| ==> ts[i] in entries
  }

  /** No two threads share an entry. */
  ghost predicate Injective(entries: map<Tid, ListHead>) {
    forall t, u :: t in entries && u in entries && entries[t] == entries[u] ==> t == u
  }

  /** The nodes of a list, its head among them. */
  ghost function Nodes(head: ListHead, entries: map<Tid, ListHead>, ts: seq<Tid>): set<ListHead>
    requires Known(entries, ts)
  {
    set n | n in [head] + Entries(entries, ts)
  }

  /** The head and the entries of the listed threads form one ring. */
  ghost predicate Listed(head: ListHead, entries: map<Tid, ListHead>, ts: seq<Tid>)
    requires Known(entries, ts)
    reads Nodes(head, entries, ts)
  {
    Ring([head] + Entries(entries, ts))
  }

  /** A list holds each thread once. */
  lemma ListedOnce(head: ListHead, entries: map<Tid, ListHead>, ts: seq<Tid>)
    requires Known(entries, ts) && Listed(head, entries, ts)
    ensures forall i, j :: 0 <= i < j < |ts| ==> ts[i] != ts[j]
    ensures forall i :: 0 <= i < |ts| ==> entries[ts[i]] != head
  {
    var ring := [head] + Entries(entries, ts);
    forall i, j | 0 <= i < j < |ts|
      ensures ts[i] != ts[j]
    {
      assert ring[i + 1] == entries[ts[i]] && ring[j + 1] == entries[ts[j]];
    }
    forall i | 0 <= i < |ts|
      ensures entries[ts[i]] != head
    {
      assert ring[i + 1] == entries[ts[i]] && ring[0] == head;
    }
  }

  /** No thread is on two lists that are threaded through the same entries. */
  lemma NeverOnTwoLists(a: ListHead, b: ListHead, entries: map<Tid, ListHead>, ts: seq<Tid>, us: seq<Tid>, t: Tid)
    requires Known(entries, ts) && Known(entries, us) && a != b && a !in entries.Values && b !in entries.Values
    requires Listed(a, entries, ts) && Listed(b, entries, us)
    ensures !(t in ts && t in us)
  {
    var r, q := [a] + Entries(entries, ts), [b] + Entries(entries, us);
    assert r[0] !in q;
    if i, j :| 0 <= i < |ts| && 0 <= j < |us| && ts[i] == t && us[j] == t {
      assert r[i + 1] == entries[t] && q[j + 1] == entries[t];
      RingsApart(r, q, i + 1);
    }
  }

  lemma EntriesSplit(entries: map<Tid, ListHead>, ts: seq<Tid>, i: nat)
    requires Known(entries, ts) && i < |ts|
    ensures Known(entries, ts[..i] + ts[i + 1..])
    ensures Entries(entries, ts[..i] + ts[i + 1..]) == Entries(entries, ts)[..i] + Entries(entries, ts)[i + 1..]
  {
  }

  /** ListHeadAddLast of a thread's entry. */
  method Append(head: ListHead, entries: map<Tid, ListHead>, t: Tid, ghost ts: seq<Tid>)
    requires Known(entries, ts) && Listed(head, entries, ts) && Injective(entries) && head !in entries.Values
    requires t in entries && t !in ts
    modifies Nodes(head, entries, ts), entries[t]
    ensures Known(entries, ts + [t]) && Listed(head, entries, ts + [t])
  {
    ghost var ring := [head] + Entries(entries, ts);
    assert entries[t] !in ring;
    AddBefore(entries[t], head, ring, 0);
    assert [head] + Entries(entries, ts + [t]) == ring + [entries[t]];
  }

  /** ListDeleteInit of the entry of the thread at position `i`. */
  method TakeOff(ghost head: ListHead, entries: map<Tid, ListHead>, t: Tid, ghost ts: seq<Tid>, ghost i: nat)
    requires Known(entries, ts) && Listed(head, entries, ts) && i < |ts| && ts[i] == t
    modifies Nodes(head, entries, ts)
    ensures Known(entries, ts[..i] + ts[i + 1..]) && Listed(head, entries, ts[..i] + ts[i + 1..])
    ensures Ring([entries[t]])
  {
    ghost var ring := [head] + Entries(entries, ts);
    EntriesSplit(entries, ts, i);
    assert ring[i + 1] == entries[t] && Before(ring, i + 1) in ring && After(ring, i + 1) in ring;
    DeleteInit(entries[t], ring, i + 1);
    assert [head] + Entries(entries, ts[..i] + ts[i + 1..]) == ring[..i + 1] + ring[i + 2..];
  }

  method TakeFirstOff(ghost head: ListHead, entries: map<Tid, ListHead>, t: Tid, ghost ts: seq<Tid>)
    requires Known(entries, ts) && Listed(head, entries, ts) && ts != [] && ts[0] == t
    modifies Nodes(head, entries, ts)
    ensures Known(entries, ts[1..]) && Listed(head, entries, ts[1..])
  {
    ghost var ring := [head] + Entries(entries, ts);
    assert ring[1] == entries[t] && Before(ring, 1) in ring && After(ring, 1) in ring;
    DeleteInit(entries[t], ring, 1);
    assert [head] + Entries(entries, ts[1..]) == ring[..1] + ring[2..];
  }

  /** ListDelete of the first entry, which is left pointing into the list. */
  method CutFirst(ghost head: ListHead, entries: map<Tid, ListHead>, t: Tid, ghost ts: seq<Tid>)
    requires Known(entries, ts) && Listed(head, entries, ts) && ts != [] && ts[0] == t
    modifies Nodes(head, entries, ts)
    ensures Known(entries, ts[1..]) && Listed(head, entries, ts[1..])
  {
    ghost var ring := [head] + Entries(entries, ts);
    assert ring[1] == entries[t] && Before(ring, 1) in ring && After(ring, 1) in ring;
    Delete(entries[t], ring, 1);
    assert [head] + Entries(entries, ts[1..]) == ring[..1] + ring[2..];
  }

  /** The thread whose entry is first on a list, or none if ListEmpty. */
  method FirstOn(head: ListHead, entries: map<Tid, ListHead>, ghost ts: seq<Tid>) returns (t: Option<Tid>)
    requires Known(entries, ts) && Listed(head, entries, ts) && Injective(entries) && head !in entries.Values
    ensures t == if ts == [] then None else Some(ts[0])
  {
    ghost var ring := [head] + Entries(entries, ts);
    PrevIsBefore(ring, 0);
    if head.next == head {
      return None;
    }
    assert head.next == entries[ts[0]];
    var u :| u in entries && entries[u] == head.next;
    return Some(u);
  }

  /** Lists threaded through the same entries keep out of each other's nodes. */
  lemma NodesApart(a: ListHead, b: ListHead, entries: map<Tid, ListHead>, ts: seq<Tid>, us: seq<Tid>)
    requires Known(entries, ts) && Known(entries, us) && a != b && a !in entries.Values && b !in entries.Values
    requires Listed(a, entries, ts) && Listed(b, entries, us)
    ensures Nodes(a, entries, ts) !! Nodes(b, entries, us)
  {
    var r, q := [a] + Entries(entries, ts), [b] + Entries(entries, us);
    assert r[0] !in q;
    forall n | n in Nodes(a, entries, ts)
      ensures n !in q
    {
      var i :| 0 <= i < |r| && r[i] == n;
      RingsApart(r, q, i);
    }
  }

  lemma EmptyListed(head: ListHead, entries: map<Tid, ListHead>)
    requires Ring([head])
    ensures Listed(head, entries, [])
  {
    assert [head] + Entries(entries, []) == [head];
  }

  lemma NotOnList(head: ListHead, entries: map<Tid, ListHead>, ts: seq<Tid>, t: Tid)
    requires Known(entries, ts) && Injective(entries) && head !in entries.Values && t in entries && t !in ts
    ensures entries[t] !in Nodes(head, entries, ts)
  {
    var ring := [head] + Entries(entries, ts);
    forall i | 0 <= i < |ring|
      ensures ring[i] != entries[t]
    {
      assert i > 0 ==> ring[i] == entries[ts[i - 1]];
    }
  }

  /** The thread is on one of the queues. */
  ghost predicate OnSome(w: map<Qid, seq<Tid>>, t: Tid) {
    exists q :: q in w && t in w[q]
  }

  lemma OnOneMore(w: map<Qid, seq<Tid>>, q: Qid, t: Tid, u: Tid)
    requires q in w
    ensures OnSome(w[q := w[q] + [t]], u) <==> OnSome(w, u) || u == t
  {
    var v := w[q := w[q] + [t]];
    if p :| p in w && u in w[p] {
      assert u in v[p];
    }
    assert t in v[q];
  }

  lemma OnOneLess(w: map<Qid, seq<Tid>>, q: Qid, i: nat, u: Tid)
    requires q in w && i < |w[q]| && u != w[q][i]
    ensures OnSome(w[q := w[q][..i] + w[q][i + 1..]], u) <==> OnSome(w, u)
  {
    var v := w[q := w[q][..i] + w[q][i + 1..]];
    assert w[q] == w[q][..i] + [w[q][i]] + w[q][i + 1..];
    if p :| p in w && u in w[p] {
      assert u in v[p];
    }
    if p :| p in v && u in v[p] {
      assert u in w[p];
    }
  }

  lemma {:induction false} CutIsWithout(ts: seq<Tid>, t: Tid, i: nat)
    requires i < |ts| && ts[i] == t && forall j :: 0 <= j < i ==> ts[j] != t
    ensures Without(ts, t) == ts[..i] + ts[i + 1..]
  {
    if i > 0 {
      CutIsWithout(ts[1..], t, i - 1);
      assert ts[..i] == [ts[0]] + ts[1..][..i - 1] && ts[1..][i..] == ts[i + 1..];
    }
  }

  /** The wait queues when the thread is off queue `q`. */
  ghost function Departed(w: map<Qid, seq<Tid>>, q: Qid, t: Tid): map<Qid, seq<Tid>> {
    if q in w then w[q := Without(w[q], t)] else w
  }

  lemma DepartedByNone(w: map<Qid, seq<Tid>>, q: Qid, t: Tid)
    requires !OnSome(w, t)
    ensures Departed(w, q, t) == w
  {
    if q in w {
      WithoutAbsent(w[q], t);
    }
  }

  /** A listed entry does not point to itself. */
  lemma ListedIsLinked(head: ListHead, entries: map<Tid, ListHead>, ts: seq<Tid>, i: nat)
    requires Known(entries, ts) && Listed(head, entries, ts) && i < |ts|
    ensures entries[ts[i]].next != entries[ts[i]]
  {
    var ring := [head] + Entries(entries, ts);
    assert ring[i + 1] == entries[ts[i]];
    PrevIsBefore(ring, i + 1);
  }

  /** Lists do not notice entries of threads that are not on them. */
  lemma SameEntries(entries: map<Tid, ListHead>, others: map<Tid, ListHead>, ts: seq<Tid>)
    requires Known(entries, ts) && forall i :: 0 <= i < |ts| ==> ts[i] in others && others[ts[i]] == entries[ts[i]]
    ensures Known(others, ts) && Entries(others, ts) == Entries(entries, ts)
  {
  }

  lemma MoreEntries(m: map<Tid, ListHead>, t: Tid, n: ListHead)
    requires Injective(m) && t !in m && n !in m.Values
    ensures Injective(m[t := n]) && m[t := n].Values == m.Values + {n}
  {
    var r := m[t := n];
    assert r[t] == n;
    forall x | x in m.Values
      ensures x in r.Values
    {
      var u :| u in m && m[u] == x;
      assert r[u] == x;
    }
  }

  lemma FewerEntries(m: map<Tid, ListHead>, t: Tid)
    requires Injective(m)
    ensures Injective(m - {t}) && (m - {t}).Values <= m.Values
  {
  }

  /** Whether a structure's invariant holds. */
  datatype Condition = Intact | Broken

  /** The run queue and the reaper's list, both threaded through the threads' schedQueueEntry. */
  class SchedLists {
    const threadQueue: ListHead
    const reaperHead: ListHead

    /** The entry embedded in each thread. */
    var entries: map<Tid, ListHead>

    /** The memory that the heads and the entries, past and future, are taken from. */
    ghost const nodes: set<ListHead>

    ghost var run: seq<Tid>
    ghost var reaping: seq<Tid>

    ghost predicate Valid()
      reads this, nodes
    {
      && threadQueue in nodes && reaperHead in nodes && entries.Values <= nodes
      && Injective(entries) && Known(entries, run) && Known(entries, reaping)
      && threadQueue != reaperHead && threadQueue !in entries.Values && reaperHead !in entries.Values
      && Listed(threadQueue, entries, run) && Listed(reaperHead, entries, reaping)
    }

    ghost function Shape(): Condition
      reads this, nodes
    {
      if Valid() then Intact else Broken
    }

    /** No threads and empty lists. */
    constructor (queue: ListHead, reaper: ListHead, ghost memory: set<ListHead>)
      requires Ring([queue]) && Ring([reaper]) && queue != reaper && queue in memory && reaper in memory
      ensures Shape() == Intact && entries == map[] && run == reaping == []
      ensures threadQueue == queue && reaperHead == reaper && nodes == memory
    {
      threadQueue, reaperHead, entries, run, reaping, nodes := queue, reaper, map[], [], [], memory;
      new;
      EmptyListed(threadQueue, entries);
      EmptyListed(reaperHead, entries);
    }

    /** One entry serves both lists, and no thread is on both or on one of them twice. */
    lemma OnOneListOnce(t: Tid)
      requires Valid()
      ensures !(t in run && t in reaping)
      ensures forall i, j :: 0 <= i < j < |run| ==> run[i] != run[j]
      ensures forall i, j :: 0 <= i < j < |reaping| ==> reaping[i] != reaping[j]
    {
      NeverOnTwoLists(threadQueue, reaperHead, entries, run, reaping, t);
      ListedOnce(threadQueue, entries, run);
      ListedOnce(reaperHead, entries, reaping);
    }

    /** ListHeadAddLast on the run queue. */
    method PushRun(t: Tid)
      requires Shape() == Intact && t in entries && t !in run && t !in reaping
      modifies this, nodes
      ensures Shape() == Intact && run == old(run) + [t] && reaping == old(reaping) && entries == old(entries)
    {
      NodesApart(threadQueue, reaperHead, entries, run, reaping);
      NotOnList(reaperHead, entries, reaping, t);
      Append(threadQueue, entries, t, run);
      run := run + [t];
    }

    /** ListEmpty, or the first thread of the run queue. */
    method FirstRunnable() returns (t: Option<Tid>)
      requires Shape() == Intact
      ensures t == if run == [] then None else Some(run[0])
    {
      t := FirstOn(threadQueue, entries, run);
    }

    method DropRunnable(t: Tid)
      requires Shape() == Intact && run != [] && t == run[0]
      modifies this, nodes
      ensures Shape() == Intact && run == old(run)[1..]
      ensures reaping == old(reaping) && entries == old(entries)
    {
      NodesApart(threadQueue, reaperHead, entries, run, reaping);
      TakeFirstOff(threadQueue, entries, t, run);
      run := run[1..];
    }

    /** The first thread of the run queue, taken off it. */
    method PopRun() returns (t: Option<Tid>)
      requires Shape() == Intact
      modifies this, nodes
      ensures Shape() == Intact && reaping == old(reaping) && entries == old(entries)
      ensures old(run) == [] ==> t == None && run == []
      ensures old(run) != [] ==> t == Some(old(run)[0]) && run == old(run)[1..]
    {
      t := FirstRunnable();
      if t.Some? {
        DropRunnable(t.value);
      }
    }

    /** ListHeadAddLast on the reaper's list. */
    method PushReaping(t: Tid)
      requires Shape() == Intact && t in entries && t !in run && t !in reaping
      modifies this, nodes
      ensures Shape() == Intact && reaping == old(reaping) + [t] && run == old(run) && entries == old(entries)
    {
      NodesApart(threadQueue, reaperHead, entries, run, reaping);
      NotOnList(threadQueue, entries, run, t);
      Append(reaperHead, entries, t, reaping);
      reaping := reaping + [t];
    }

    method FirstToReap() returns (t: Option<Tid>)
      requires Shape() == Intact
      ensures t == if reaping == [] then None else Some(reaping[0])
    {
      t := FirstOn(reaperHead, entries, reaping);
    }

    method DropToReap(t: Tid)
      requires Shape() == Intact && reaping != [] && t == reaping[0]
      modifies this, nodes
      ensures Shape() == Intact && reaping == old(reaping)[1..]
      ensures run == old(run) && entries == old(entries)
    {
      NodesApart(threadQueue, reaperHead, entries, run, reaping);
      CutFirst(reaperHead, entries, t, reaping);
      reaping := reaping[1..];
    }

    /** The first thread of the reaper's list, taken off it. */
    method PopReaping() returns (t: Option<Tid>)
      requires Shape() == Intact
      modifies this, nodes
      ensures Shape() == Intact && run == old(run) && entries == old(entries)
      ensures old(reaping) == [] ==> t == None && reaping == []
      ensures old(reaping) != [] ==> t == Some(old(reaping)[0]) && reaping == old(reaping)[1..]
    {
      t := FirstToReap();
      if t.Some? {
        DropToReap(t.value);
      }
    }

    /** ListHeadInit on the entry of a thread that is on no list. */
    method ClearEntry(t: Tid)
      requires Shape() == Intact && t in entries && t !in run && t !in reaping
      modifies this, nodes
      ensures Shape() == Intact && run == old(run) && reaping == old(reaping) && entries == old(entries)
    {
      NotOnList(threadQueue, entries, run, t);
      NotOnList(reaperHead, entries, reaping, t);
      Init(entries[t]);
    }

    /** Free memory for an entry. */
    ghost predicate Unused(n: ListHead)
      reads this
    {
      n in nodes && n !in entries.Values && n != threadQueue && n != reaperHead
    }

    method PrepareEntry(n: ListHead)
      requires Shape() == Intact && Unused(n)
      modifies n
      ensures Shape() == Intact
    {
      assert n !in Nodes(threadQueue, entries, run) && n !in Nodes(reaperHead, entries, reaping);
      Init(n);
    }

    /** A new thread's entry. */
    method Enrol(t: Tid, n: ListHead)
      requires Shape() == Intact && t !in entries && Unused(n)
      modifies this`entries, n
      ensures Shape() == Intact && entries == old(entries)[t := n] && run == old(run) && reaping == old(reaping)
    {
      PrepareEntry(n);
      MoreEntries(entries, t, n);
      SameEntries(entries, entries[t := n], run);
      SameEntries(entries, entries[t := n], reaping);
      entries := entries[t := n];
    }

    /** A thread on no list is freed, entry and all. */
    method Discharge(t: Tid)
      requires Shape() == Intact && t !in run && t !in reaping
      modifies this`entries
      ensures Shape() == Intact && entries == old(entries) - {t} && run == old(run) && reaping == old(reaping)
    {
      FewerEntries(entries, t);
      SameEntries(entries, entries - {t}, run);
      SameEntries(entries, entries - {t}, reaping);
      entries := entries - {t};
    }
  }

  /** The wait queues, threaded through the threads' waitQueue entries. */
  class WaitQueues {
    const heads: map<Qid, ListHead>
    var entries: map<Tid, ListHead>
    ghost const nodes: set<ListHead>
    ghost var waiting: map<Qid, seq<Tid>>

    ghost predicate OnQueue(t: Tid)
      reads this
    {
      OnSome(waiting, t)
    }

    /** The entry of a thread on no queue is an empty ring, which is how the thread tells. */
    ghost predicate Holds(w: map<Qid, seq<Tid>>)
      reads this, nodes
    {
      && w.Keys == heads.Keys && heads.Values <= nodes && entries.Values <= nodes
      && (forall q :: q in heads ==> Known(entries, w[q]) && Listed(heads[q], entries, w[q]))
      && (forall t :: t in entries && !OnSome(w, t) ==> Ring([entries[t]]))
    }

    ghost predicate Valid()
      reads this, nodes
    {
      Injective(entries) && Injective(heads) && heads.Values !! entries.Values && Holds(waiting)
    }

    ghost function Shape(): Condition
      reads this, nodes
    {
      if Valid() then Intact else Broken
    }

    constructor (hs: map<Qid, ListHead>, ghost memory: set<ListHead>)
      requires Injective(hs) && hs.Values <= memory && forall q :: q in hs ==> Ring([hs[q]])
      ensures Shape() == Intact && heads == hs && entries == map[] && nodes == memory
      ensures waiting.Keys == hs.Keys && forall q :: q in waiting ==> waiting[q] == []
    {
      heads, entries, nodes := hs, map[], memory;
      waiting := map q | q in hs :: [];
      new;
      forall q | q in heads
        ensures Known(entries, waiting[q]) && Listed(heads[q], entries, waiting[q])
      {
        EmptyListed(heads[q], entries);
      }
    }

    /** No thread is on two wait queues. */
    lemma OnOneQueue(t: Tid, p: Qid, q: Qid)
      requires Valid() && p in waiting && q in waiting && t in waiting[p] && t in waiting[q]
      ensures p == q
    {
      if p != q {
        NeverOnTwoLists(heads[p], heads[q], entries, waiting[p], waiting[q], t);
      }
    }

    /** Everything that keeps out of queue `q`. */
    lemma OthersApart(q: Qid)
      requires Valid() && q in heads
      ensures forall p ::
                p in heads && p != q ==> Nodes(heads[q], entries, waiting[q]) !! Nodes(heads[p], entries, waiting[p])
      ensures forall u :: u in entries && u !in waiting[q] ==> entries[u] !in Nodes(heads[q], entries, waiting[q])
    {
      forall p | p in heads && p != q
        ensures Nodes(heads[q], entries, waiting[q]) !! Nodes(heads[p], entries, waiting[p])
      {
        NodesApart(heads[q], heads[p], entries, waiting[q], waiting[p]);
      }
      forall u | u in entries && u !in waiting[q]
        ensures entries[u] !in Nodes(heads[q], entries, waiting[q])
      {
        NotOnList(heads[q], entries, waiting[q], u);
      }
    }

    /** The rings of all queues but `q`, and of all threads on no queue but `t`. */
    ghost predicate OthersHold(q: Qid, t: Tid)
      reads this, nodes
    {
      && heads.Keys == waiting.Keys && heads.Values <= nodes && entries.Values <= nodes
      && (forall p :: p in heads && p != q ==> Known(entries, waiting[p]) && Listed(heads[p], entries, waiting[p]))
      && (forall u :: u in entries && u != t && !OnQueue(u) ==> Ring([entries[u]]))
    }

    lemma HoldsOneMore(q: Qid, t: Tid)
      requires q in heads && OthersHold(q, t)
      requires Known(entries, waiting[q] + [t]) && Listed(heads[q], entries, waiting[q] + [t])
      ensures Holds(waiting[q := waiting[q] + [t]])
    {
      var w := waiting[q := waiting[q] + [t]];
      forall u | u in entries && !OnSome(w, u)
        ensures Ring([entries[u]])
      {
        OnOneMore(waiting, q, t, u);
      }
    }

    lemma HoldsOneLess(q: Qid, t: Tid, i: nat)
      requires q in heads && OthersHold(q, t) && i < |waiting[q]| && waiting[q][i] == t
      requires Known(entries, waiting[q][..i] + waiting[q][i + 1..])
      requires Listed(heads[q], entries, waiting[q][..i] + waiting[q][i + 1..]) && (t in entries ==> Ring([entries[t]]))
      ensures Holds(waiting[q := waiting[q][..i] + waiting[q][i + 1..]])
    {
      var w := waiting[q := waiting[q][..i] + waiting[q][i + 1..]];
      forall u | u in entries && !OnSome(w, u)
        ensures Ring([entries[u]])
      {
        if u != t {
          OnOneLess(waiting, q, i, u);
        }
      }
    }

    ghost method Note(w: map<Qid, seq<Tid>>)
      requires Injective(entries) && Injective(heads) && heads.Values !! entries.Values && Holds(w)
      modifies this`waiting
      ensures Valid() && waiting == w
    {
      waiting := w;
    }

    /** The entry goes on the ring; the other rings stay as they are. */
    method LinkLast(q: Qid, t: Tid)
      requires Valid() && q in heads && t in entries && !OnQueue(t)
      modifies nodes
      ensures OthersHold(q, t) && Known(entries, waiting[q] + [t]) && Listed(heads[q], entries, waiting[q] + [t])
    {
      OthersApart(q);
      forall p | p in heads && p != q
        ensures entries[t] !in Nodes(heads[p], entries, waiting[p])
      {
        NotOnList(heads[p], entries, waiting[p], t);
      }
      assert t !in waiting[q] && forall u :: u in entries && !OnQueue(u) ==> u !in waiting[q];
      Append(heads[q], entries, t, waiting[q]);
    }

    /** The entry comes off the ring and is empty again; the other rings stay as they are. */
    method UnlinkAt(ghost q: Qid, t: Tid, ghost i: nat)
      requires Valid() && q in heads && i < |waiting[q]| && waiting[q][i] == t
      modifies nodes
      ensures OthersHold(q, t) && Known(entries, waiting[q][..i] + waiting[q][i + 1..])
      ensures Listed(heads[q], entries, waiting[q][..i] + waiting[q][i + 1..]) && Ring([entries[t]])
    {
      OthersApart(q);
      assert forall u :: u in entries && !OnQueue(u) ==> u !in waiting[q];
      TakeOff(heads[q], entries, t, waiting[q], i);
    }

    /** ListHeadAddLast on a wait queue. */
    method Join(q: Qid, t: Tid)
      requires Shape() == Intact && q in heads && t in entries && !OnQueue(t)
      modifies this, nodes
      ensures Shape() == Intact && waiting == old(waiting)[q := old(waiting)[q] + [t]] && entries == old(entries)
    {
      LinkLast(q, t);
      HoldsOneMore(q, t);
      Note(waiting[q := waiting[q] + [t]]);
    }

    method FirstOf(q: Qid) returns (t: Option<Tid>)
      requires Shape() == Intact && q in heads
      ensures q in waiting && t == if waiting[q] == [] then None else Some(waiting[q][0])
    {
      t := FirstOn(heads[q], entries, waiting[q]);
    }

    /** ListDeleteInit on the entry at position `i` of its queue. */
    method TakeOut(t: Tid, ghost q: Qid, ghost i: nat)
      requires Shape() == Intact && q in waiting && i < |waiting[q]| && waiting[q][i] == t
      modifies this, nodes
      ensures Shape() == Intact && entries == old(entries)
      ensures waiting == old(waiting)[q := old(waiting)[q][..i] + old(waiting)[q][i + 1..]]
    {
      UnlinkAt(q, t, i);
      HoldsOneLess(q, t, i);
      Note(waiting[q := waiting[q][..i] + waiting[q][i + 1..]]);
    }

    /** The first thread of a wait queue, taken off it. */
    method Pop(q: Qid) returns (t: Option<Tid>)
      requires Shape() == Intact && q in heads
      modifies this, nodes
      ensures Shape() == Intact && entries == old(entries) && q in old(waiting)
      ensures old(waiting)[q] == [] ==> t == None && waiting == old(waiting)
      ensures old(waiting)[q] != [] ==>
        t == Some(old(waiting)[q][0]) && waiting == old(waiting)[q := old(waiting)[q][1..]]
    {
      t := FirstOf(q);
      if t.Some? {
        assert waiting[q][..0] + waiting[q][1..] == waiting[q][1..];
        TakeOut(t.value, q, 0);
      }
    }

    /** ListEmpty on the thread's own entry says whether it is still queued. */
    method StillQueued(t: Tid) returns (r: bool)
      requires Shape() == Intact && t in entries
      ensures r <==> OnQueue(t)
    {
      r := entries[t].next != entries[t];
      if q :| q in waiting && t in waiting[q] {
        var i :| 0 <= i < |waiting[q]| && waiting[q][i] == t;
        ListedIsLinked(heads[q], entries, waiting[q], i);
      } else {
        PrevIsBefore([entries[t]], 0);
      }
    }

    lemma PlaceOn(t: Tid, q: Qid) returns (i: nat)
      requires Shape() == Intact && q in waiting && t in waiting[q]
      ensures i < |waiting[q]| && waiting[q][i] == t && Without(waiting[q], t) == waiting[q][..i] + waiting[q][i + 1..]
    {
      i :| 0 <= i < |waiting[q]| && waiting[q][i] == t;
      ListedOnce(heads[q], entries, waiting[q]);
      CutIsWithout(waiting[q], t, i);
    }

    /** A waiter that is still queued takes itself off, whichever queue that is. */
    method Leave(t: Tid, ghost q: Qid)
      requires Shape() == Intact && t in entries && (OnQueue(t) ==> q in waiting && t in waiting[q])
      modifies this, nodes
      ensures Shape() == Intact && entries == old(entries)
      ensures waiting == Departed(old(waiting), q, t)
    {
      var queued := StillQueued(t);
      if queued {
        ghost var i := PlaceOn(t, q);
        TakeOut(t, q, i);
      } else {
        DepartedByNone(waiting, q, t);
      }
    }

    lemma HoldsWith(m: map<Tid, ListHead>)
      requires Valid()
      requires forall t :: OnQueue(t) ==> t in m && m[t] == entries[t]
      ensures forall q :: q in heads ==> Known(m, waiting[q]) && Entries(m, waiting[q]) == Entries(entries, waiting[q])
    {
      forall q | q in heads
        ensures Known(m, waiting[q]) && Entries(m, waiting[q]) == Entries(entries, waiting[q])
      {
        assert forall i :: 0 <= i < |waiting[q]| ==> OnQueue(waiting[q][i]);
        SameEntries(entries, m, waiting[q]);
      }
    }

    /** Free memory for an entry. */
    ghost predicate Unused(n: ListHead)
      reads this
    {
      n in nodes && n !in entries.Values && n !in heads.Values
    }

    /** No ring passes through free memory. */
    lemma NoRingThrough(n: ListHead)
      requires Valid() && Unused(n)
      ensures forall q :: q in heads ==> n !in Nodes(heads[q], entries, waiting[q])
    {
    }

    method PrepareEntry(n: ListHead)
      requires Shape() == Intact && Unused(n)
      modifies n
      ensures Shape() == Intact && Ring([n])
    {
      NoRingThrough(n);
      Init(n);
    }

    /** A new thread's entry, initialised so that the thread is on no queue. */
    method Enrol(t: Tid, n: ListHead)
      requires Shape() == Intact && t !in entries && Unused(n)
      modifies this`entries, n
      ensures Shape() == Intact && entries == old(entries)[t := n] && waiting == old(waiting)
    {
      PrepareEntry(n);
      MoreEntries(entries, t, n);
      HoldsWith(entries[t := n]);
      entries := entries[t := n];
    }

    /** A thread on no queue is freed, entry and all. */
    method Discharge(t: Tid)
      requires Shape() == Intact && !OnQueue(t)
      modifies this`entries
      ensures Shape() == Intact && entries == old(entries) - {t} && waiting == old(waiting)
    {
      FewerEntries(entries, t);
      HoldsWith(entries - {t});
      entries := entries - {t};
    }
  }
}
