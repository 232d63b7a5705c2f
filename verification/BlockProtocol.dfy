/**
 The block cache under interleaving: kernel/src/io/bcache.c.

 Threads give up the processor only inside a device call or a wait queue, so each step below is the
 code between two such points. Blocks are numbered; block `k` holds the device bytes from k * size.
 A device write changes the device gradually (Tear) until it completes. A whole-block overwrite of an
 uncached block is the step Overwrite; those of cached blocks, which take no reference, are added in
 BlockOverwrites.
 */
module BlockProtocol {
  import opened Common
  import opened Blocks

  type Tid = nat

  /** IoBlock: `waiters` is its wait queue, oldest first. */
  datatype Block = Block(number: nat, state: BlockState, refCount: nat, data: Data, waiters: seq<Tid>)

  /** What a thread is doing between two blocking points. */
  datatype Activity =
    | Idle
    | InRead(block: nat)
    | InWrite(block: nat, lo: nat, count: nat)
    | Holding(block: nat)
    | AwaitRead(block: nat)
    | AwaitWrite(block: nat, lo: nat, bytes: Data)

  /** `freed` lists the blocks given back to the allocator, in order. */
  datatype State = State(
    size: nat,
    device: seq<Data>,
    table: map<nat, nat>,
    blocks: map<nat, Block>,
    threads: map<Tid, Activity>,
    next: nat,
    freed: seq<nat>)

  predicate Refers(a: Activity, b: nat) {
    !a.Idle? && a.block == b
  }

  predicate Performs(a: Activity, b: nat) {
    (a.InRead? || a.InWrite?) && a.block == b
  }

  predicate Awaits(a: Activity, b: nat) {
    (a.AwaitRead? || a.AwaitWrite?) && a.block == b
  }

  /** The threads that hold the block or wait on it. */
  function Users(threads: map<Tid, Activity>, b: nat): set<Tid> {
    set t | t in threads && Refers(threads[t], b)
  }

  ghost predicate AgreeOutside(a: Data, b: Data, lo: nat, hi: nat) {
    |a| == |b| && forall i :: 0 <= i < |a| && !(lo <= i < hi) ==> a[i] == b[i]
  }

  ghost predicate Tabled(s: State, b: nat)
    requires b in s.blocks
  {
    s.blocks[b].number in s.table && s.table[s.blocks[b].number] == b
  }

  ghost predicate Reads(s: State, t: Tid, b: nat) {
    t in s.threads && s.threads[t] == InRead(b)
  }

  ghost predicate Writes(s: State, t: Tid, b: nat) {
    t in s.threads && s.threads[t].InWrite? && s.threads[t].block == b
  }

  // ---------------------------------------------------------------- the invariant

  /** The wait queue holds sleeping threads only, and only while a device call will wake them. */
  ghost predicate WaitersInv(s: State, b: nat)
    requires b in s.blocks
  {
    var x := s.blocks[b];
    && NoDuplicates(x.waiters)
    && (forall t :: t in x.waiters ==> t in s.threads && Awaits(s.threads[t], b))
    && (x.waiters != [] ==> x.state == Reading || x.state == Writing)
  }

  /** The state says which device call is in progress, and there is at most one. */
  ghost predicate CallsInv(s: State, b: nat)
    requires b in s.blocks
  {
    var x := s.blocks[b];
    && (x.state == Reading <==> exists t :: Reads(s, t, b))
    && (x.state == Writing <==> exists t :: Writes(s, t, b))
    && (forall t, u :: Reads(s, t, b) && Reads(s, u, b) ==> t == u)
    && (forall t, u :: Writes(s, t, b) && Writes(s, u, b) ==> t == u)
  }

  /** An OK block equals the device; one being written differs only inside the range in flight. */
  ghost predicate DataInv(s: State, b: nat)
    requires b in s.blocks
  {
    var x := s.blocks[b];
    && |x.data| == s.size
    && x.number < |s.device|
    && (x.state == Ok ==> x.data == s.device[x.number])
    && (forall t :: Writes(s, t, b) ==>
          && s.threads[t].lo + s.threads[t].count <= s.size
          && AgreeOutside(x.data, s.device[x.number], s.threads[t].lo, s.threads[t].lo + s.threads[t].count))
  }

  ghost predicate BlockInv(s: State, b: nat)
    requires b in s.blocks
  {
    var x := s.blocks[b];
    && x.refCount == |Users(s.threads, b)|
    && (x.state == Error <==> !Tabled(s, b))
    && (x.state == Error ==> x.refCount > 0)
    && WaitersInv(s, b)
    && CallsInv(s, b)
    && DataInv(s, b)
  }

  ghost predicate Inv(s: State) {
    && (forall k :: 0 <= k < |s.device| ==> |s.device[k]| == s.size)
    && TableInv(s)
    && ThreadsInv(s)
    && IdsInv(s)
    && (forall b :: b in s.blocks ==> b < s.next && BlockInv(s, b))
  }

  /** The table names live blocks by their numbers. */
  ghost predicate TableInv(s: State) {
    forall k :: k in s.table ==> s.table[k] in s.blocks && s.blocks[s.table[k]].number == k
  }

  /** No thread refers to a block that has been given back. */
  ghost predicate ThreadsInv(s: State) {
    forall t :: t in s.threads && !s.threads[t].Idle? ==> s.threads[t].block in s.blocks
  }

  /** Each block identity handed out is live or freed, never both, and freed at most once. */
  ghost predicate IdsInv(s: State) {
    && NoDuplicates(s.freed)
    && (forall b :: b in s.freed ==> b < s.next)
    && (forall b: nat :: b < s.next ==> (b in s.freed <==> b !in s.blocks))
  }

  // ---------------------------------------------------------------- the steps

  datatype Op =
    | Lookup(t: Tid, number: nat, garbage: Data)
    | ReadDone(t: Tid, success: bool)
    | ResumeRead(t: Tid)
    | Overwrite(t: Tid, number: nat, bytes: Data)
    | BeginWrite(t: Tid, lo: nat, bytes: Data)
    | ResumeWrite(t: Tid)
    | Tear(t: Tid, torn: Data)
    | WriteDone(t: Tid, success: bool)
    | Release(t: Tid)

  ghost predicate Awake(s: State, t: Tid)
    requires t in s.threads && !s.threads[t].Idle? && s.threads[t].block in s.blocks
  {
    t !in s.blocks[s.threads[t].block].waiters
  }

  ghost predicate Enabled(s: State, op: Op) {
    && op.t in s.threads
    && var a := s.threads[op.t];
    && (!a.Idle? ==> a.block in s.blocks)
    && match op
       case Lookup(_, number, garbage) =>
         && a.Idle? && number < |s.device| && |garbage| == s.size
         && (number in s.table ==> s.table[number] in s.blocks)
       case ReadDone(_, _) => a.InRead? && s.blocks[a.block].number < |s.device|
       case ResumeRead(t) => a.AwaitRead? && Awake(s, t)
       case Overwrite(_, number, bytes) =>
         a.Idle? && number < |s.device| && number !in s.table && |bytes| == s.size
       case BeginWrite(_, lo, bytes) => a.Holding? && lo + |bytes| <= |s.blocks[a.block].data|
       case ResumeWrite(t) =>
         a.AwaitWrite? && Awake(s, t) && a.lo + |a.bytes| <= |s.blocks[a.block].data|
       case Tear(_, torn) =>
         && a.InWrite? && |torn| == a.count && s.blocks[a.block].number < |s.device|
         && a.lo + a.count <= |s.device[s.blocks[a.block].number]|
       case WriteDone(_, _) =>
         && a.InWrite? && s.blocks[a.block].number < |s.device| && a.lo + a.count <= |s.blocks[a.block].data|
         && |s.device[s.blocks[a.block].number]| == |s.blocks[a.block].data|
       case Release(_) => a.Holding?
  }

  function WithBlock(s: State, b: nat, x: Block): State {
    s.(blocks := s.blocks[b := x])
  }

  function WithThread(s: State, t: Tid, a: Activity): State {
    s.(threads := s.threads[t := a])
  }

  /** IoBlockCacheUnlock by a thread that is then idle. */
  function Unlock(s: State, t: Tid, b: nat): State
    requires b in s.blocks
  {
    var x := s.blocks[b];
    var idle := WithThread(s, t, Idle);
    if x.refCount == 0 then idle
    else if x.state == Error && x.refCount == 1 then
      State(s.size, s.device, s.table, s.blocks - {b}, idle.threads, s.next, s.freed + [b])
    else WithBlock(idle, b, x.(refCount := x.refCount - 1))
  }

  /** The head of IoBlockCacheWriteBuffer's wait loop and what follows it. */
  function TryWrite(s: State, t: Tid, b: nat, lo: nat, bytes: Data): State
    requires b in s.blocks && lo + |bytes| <= |s.blocks[b].data|
  {
    var x := s.blocks[b];
    match x.state
    case Error => Unlock(s, t, b)
    case Ok =>
      WithThread(WithBlock(s, b, x.(state := Writing, data := Splice(x.data, lo, bytes))), t, InWrite(b, lo, |bytes|))
    case _ => WithThread(WithBlock(s, b, x.(waiters := x.waiters + [t])), t, AwaitWrite(b, lo, bytes))
  }

  /** The block leaves the table at once and its waiters are woken. */
  function Failed(s: State, b: nat): State
    requires b in s.blocks
  {
    var x := s.blocks[b];
    State(s.size, s.device, s.table - {x.number}, s.blocks[b := Block(x.number, Error, x.refCount, x.data, [])],
          s.threads, s.next, s.freed)
  }

  /** The bytes in flight have reached the device; the waiters are woken. */
  function Written(s: State, t: Tid, b: nat): State
    requires b in s.blocks && t in s.threads && s.threads[t].InWrite?
    requires s.blocks[b].number < |s.device| && s.threads[t].lo + s.threads[t].count <= |s.blocks[b].data|
    requires |s.device[s.blocks[b].number]| == |s.blocks[b].data|
  {
    var x := s.blocks[b];
    var a := s.threads[t];
    State(s.size, s.device[x.number := Splice(s.device[x.number], a.lo, x.data[a.lo..a.lo + a.count])], s.table,
          s.blocks[b := Block(x.number, Ok, x.refCount, x.data, [])], s.threads, s.next, s.freed)
  }

  /** A cached block gains a reference; the thread waits if the block is still being read. */
  function Hit(s: State, t: Tid, b: nat): State
    requires b in s.blocks
  {
    var x := s.blocks[b];
    if x.state == Reading then
      WithThread(WithBlock(s, b, Block(x.number, x.state, x.refCount + 1, x.data, x.waiters + [t])), t, AwaitRead(b))
    else
      WithThread(WithBlock(s, b, Block(x.number, x.state, x.refCount + 1, x.data, x.waiters)), t, Holding(b))
  }

  function Step(s: State, op: Op): State
    requires Enabled(s, op)
  {
    var a := s.threads[op.t];
    match op
    case Lookup(t, number, garbage) =>
      if number !in s.table then
        State(s.size, s.device, s.table[number := s.next],
              s.blocks[s.next := Block(number, Reading, 1, garbage, [])],
              s.threads[t := InRead(s.next)], s.next + 1, s.freed)
      else Hit(s, t, s.table[number])
    case ReadDone(t, success) =>
      var x := s.blocks[a.block];
      if success then
        WithThread(WithBlock(s, a.block, Block(x.number, Ok, x.refCount, s.device[x.number], [])), t, Holding(a.block))
      else
        Unlock(Failed(s, a.block), t, a.block)
    case ResumeRead(t) =>
      if s.blocks[a.block].state == Error then Unlock(s, t, a.block) else WithThread(s, t, Holding(a.block))
    case Overwrite(t, number, bytes) =>
      State(s.size, s.device, s.table[number := s.next],
            s.blocks[s.next := Block(number, Writing, 1, bytes, [])],
            s.threads[t := InWrite(s.next, 0, s.size)], s.next + 1, s.freed)
    case BeginWrite(t, lo, bytes) => TryWrite(s, t, a.block, lo, bytes)
    case ResumeWrite(t) => TryWrite(s, t, a.block, a.lo, a.bytes)
    case Tear(t, torn) =>
      var k := s.blocks[a.block].number;
      s.(device := s.device[k := Splice(s.device[k], a.lo, torn)])
    case WriteDone(t, success) =>
      Unlock(if success then Written(s, t, a.block) else Failed(s, a.block), t, a.block)
    case Release(t) => Unlock(s, t, a.block)
  }

  // ---------------------------------------------------------------- every step keeps the invariant

  lemma UsersAfter(threads: map<Tid, Activity>, t: Tid, a: Activity, b: nat)
    requires t in threads
    ensures Users(threads[t := a], b) == (if Refers(a, b) then Users(threads, b) + {t} else Users(threads, b) - {t})
    ensures Refers(a, b) == Refers(threads[t], b) ==> Users(threads[t := a], b) == Users(threads, b)
  {
  }

  /** Only thread `t` moves, and it refers to block `b` neither before nor after. */
  ghost predicate Apart(s: State, next: State, t: Tid, b: nat) {
    && t in s.threads
    && next.threads.Keys == s.threads.Keys
    && (forall u :: u in s.threads && u != t ==> next.threads[u] == s.threads[u])
    && !Refers(s.threads[t], b)
    && !Refers(next.threads[t], b)
  }

  lemma ApartCalls(s: State, next: State, t: Tid, b: nat)
    requires Apart(s, next, t, b)
    ensures forall u :: Reads(next, u, b) == Reads(s, u, b)
    ensures forall u :: Writes(next, u, b) == Writes(s, u, b)
    ensures forall u :: Writes(next, u, b) ==> next.threads[u] == s.threads[u]
    ensures Users(next.threads, b) == Users(s.threads, b)
  {
    assert next.threads == s.threads[t := next.threads[t]];
    UsersAfter(s.threads, t, next.threads[t], b);
  }

  /** A block is unaffected by a step of a thread that has nothing to do with it. */
  lemma BlockUntouched(s: State, next: State, t: Tid, b: nat)
    requires b in s.blocks && BlockInv(s, b) && Apart(s, next, t, b)
    requires b in next.blocks && next.blocks[b] == s.blocks[b] && next.size == s.size
    requires |next.device| == |s.device|
    requires s.blocks[b].state != Error ==> next.device[s.blocks[b].number] == s.device[s.blocks[b].number]
    requires Tabled(next, b) == Tabled(s, b)
    ensures BlockInv(next, b)
  {
    ApartCalls(s, next, t, b);
    assert CallsInv(next, b);
    assert DataInv(next, b);
    assert WaitersInv(next, b);
  }

  /** The step of thread `t` concerns block `b`, whose number is `k`, and nothing else. */
  ghost predicate Local(s: State, next: State, t: Tid, b: nat, k: nat) {
    && t in s.threads
    && next.threads.Keys == s.threads.Keys
    && (forall u :: u in s.threads && u != t ==> next.threads[u] == s.threads[u])
    && (s.threads[t].Idle? || s.threads[t].block == b)
    && (next.threads[t].Idle? || next.threads[t].block == b)
    && next.size == s.size
    && ((next.device == s.device && next.table == s.table) || OnlyAt(s, next, b, k))
    && (forall c :: c in s.blocks && c != b ==> c in next.blocks && next.blocks[c] == s.blocks[c])
    && (forall c :: c in next.blocks && c != b ==> c in s.blocks)
    && (b in s.blocks ==> s.blocks[b].number == k)
  }

  /** Device and table change at number `k` alone, which belongs to `b` if to any block. */
  ghost predicate OnlyAt(s: State, next: State, b: nat, k: nat) {
    && |next.device| == |s.device|
    && (forall i :: 0 <= i < |s.device| && i != k ==> next.device[i] == s.device[i])
    && (forall i :: i != k ==> (i in next.table <==> i in s.table))
    && (forall i :: i != k && i in s.table ==> next.table[i] == s.table[i])
    && (k in s.table ==> s.table[k] == b)
    && (k in next.table ==> next.table[k] == b)
  }

  lemma LocalKeepsOthers(s: State, next: State, t: Tid, b: nat, k: nat, c: nat)
    requires Inv(s) && Local(s, next, t, b, k) && c in s.blocks && c != b
    ensures BlockInv(next, c)
  {
    assert Apart(s, next, t, c);
    assert Tabled(next, c) == Tabled(s, c) by {
      assert BlockInv(s, c);
    }
    BlockUntouched(s, next, t, c);
  }

  /** A local step after which the block concerned is in order, or gone with no one left referring to it. */
  ghost predicate Landed(s: State, next: State, t: Tid, b: nat, k: nat) {
    && Local(s, next, t, b, k)
    && IdsInv(next)
    && s.next <= next.next
    && (forall i :: 0 <= i < |next.device| ==> |next.device[i]| == next.size)
    && (b in next.blocks ==> b < next.next && BlockInv(next, b))
    && (b !in next.blocks ==> Users(next.threads, b) == {})
    && (forall i :: i in next.table && next.table[i] == b ==> b in next.blocks && next.blocks[b].number == i)
  }

  lemma LocalTable(s: State, next: State, t: Tid, b: nat, k: nat)
    requires TableInv(s) && Local(s, next, t, b, k)
    requires forall i :: i in next.table && next.table[i] == b ==> b in next.blocks && next.blocks[b].number == i
    ensures TableInv(next)
  {
  }

  lemma LocalThreads(s: State, next: State, t: Tid, b: nat, k: nat)
    requires ThreadsInv(s) && Local(s, next, t, b, k)
    requires b !in next.blocks ==> Users(next.threads, b) == {}
    ensures ThreadsInv(next)
  {
    forall u | u in next.threads && !next.threads[u].Idle?
      ensures next.threads[u].block in next.blocks
    {
      if next.threads[u].block == b {
        assert u in Users(next.threads, b);
      }
    }
  }

  lemma LocalBlocks(s: State, next: State, t: Tid, b: nat, k: nat)
    requires Inv(s) && Local(s, next, t, b, k) && s.next <= next.next
    requires b in next.blocks ==> b < next.next && BlockInv(next, b)
    ensures forall c :: c in next.blocks ==> c < next.next && BlockInv(next, c)
  {
    forall c | c in next.blocks
      ensures c < next.next && BlockInv(next, c)
    {
      if c != b {
        LocalKeepsOthers(s, next, t, b, k, c);
      }
    }
  }

  lemma LocalKeepsInv(s: State, next: State, t: Tid, b: nat, k: nat)
    requires Inv(s) && Landed(s, next, t, b, k)
    ensures Inv(next)
  {
    LocalTable(s, next, t, b, k);
    LocalThreads(s, next, t, b, k);
    LocalBlocks(s, next, t, b, k);
  }

  /** Dropping a reference: the block survives with one less, or was the last user's failed block and goes. */
  lemma UnlockBlock(m: State, t: Tid, b: nat)
    requires b in m.blocks && t in m.threads && Refers(m.threads[t], b)
    requires m.blocks[b].refCount == |Users(m.threads, b)|
    requires m.blocks[b].state == Error <==> !Tabled(m, b)
    requires WaitersInv(m, b) && t !in m.blocks[b].waiters
    requires CallsInv(WithThread(m, t, Idle), b) && DataInv(WithThread(m, t, Idle), b)
    ensures var next := Unlock(m, t, b);
            && (b !in next.blocks <==> m.blocks[b].state == Error && m.blocks[b].refCount == 1)
            && (b in next.blocks ==> BlockInv(next, b) && next.freed == m.freed)
            && (b !in next.blocks ==> Users(next.threads, b) == {} && next.freed == m.freed + [b])
  {
    var x := m.blocks[b];
    var idle := WithThread(m, t, Idle);
    var next := Unlock(m, t, b);
    UsersAfter(m.threads, t, Idle, b);
    assert t in Users(m.threads, b);
    if b in next.blocks {
      assert next.threads == idle.threads;
      assert forall u :: Reads(next, u, b) == Reads(idle, u, b) && Writes(next, u, b) == Writes(idle, u, b);
      assert CallsInv(next, b);
      assert DataInv(next, b);
      assert WaitersInv(next, b);
    }
  }

  lemma FreedOnce(s: State, next: State, b: nat)
    requires IdsInv(s) && b in s.blocks && b < s.next
    requires next.freed == s.freed + [b] && next.blocks.Keys == s.blocks.Keys - {b} && next.next == s.next
    ensures IdsInv(next)
  {
  }

  /** The state just before an unlock differs from `s` in block `b` alone. */
  ghost predicate Poised(s: State, m: State, t: Tid, b: nat) {
    && b in s.blocks && b in m.blocks && t in s.threads && Refers(s.threads[t], b)
    && m.blocks == s.blocks[b := m.blocks[b]]
    && m.blocks[b].number == s.blocks[b].number
    && m.blocks[b].refCount == s.blocks[b].refCount
    && m.threads == s.threads && m.freed == s.freed && m.next == s.next && m.size == s.size
    && ((m.device == s.device && m.table == s.table) || OnlyAt(s, m, b, s.blocks[b].number))
  }

  lemma PoisedIsLocal(s: State, m: State, t: Tid, b: nat)
    requires Poised(s, m, t, b)
    ensures Local(s, Unlock(m, t, b), t, b, s.blocks[b].number)
  {
  }

  lemma PoisedIds(s: State, m: State, t: Tid, b: nat)
    requires Poised(s, m, t, b) && IdsInv(s) && b < s.next
    ensures IdsInv(Unlock(m, t, b))
  {
    var next := Unlock(m, t, b);
    if b in next.blocks {
      assert next.blocks.Keys == s.blocks.Keys;
    } else {
      FreedOnce(s, next, b);
    }
  }

  lemma UnlockLands(s: State, m: State, t: Tid, b: nat)
    requires Poised(s, m, t, b) && BlockInv(s, b) && IdsInv(s) && b < s.next
    requires forall i :: 0 <= i < |m.device| ==> |m.device[i]| == m.size
    requires forall i :: i in m.table && m.table[i] == b ==> m.blocks[b].number == i
    requires m.blocks[b].state == Error <==> !Tabled(m, b)
    requires WaitersInv(m, b) && t !in m.blocks[b].waiters
    requires CallsInv(WithThread(m, t, Idle), b) && DataInv(WithThread(m, t, Idle), b)
    ensures Landed(s, Unlock(m, t, b), t, b, s.blocks[b].number)
  {
    UnlockBlock(m, t, b);
    PoisedIsLocal(s, m, t, b);
    PoisedIds(s, m, t, b);
  }

  /** Completes a step that ends in an unlock, given the state `m` just before the unlock. */
  lemma UnlockKeepsInv(s: State, m: State, t: Tid, b: nat)
    requires Inv(s) && Poised(s, m, t, b)
    requires forall i :: 0 <= i < |m.device| ==> |m.device[i]| == m.size
    requires m.blocks[b].state == Error <==> !Tabled(m, b)
    requires WaitersInv(m, b) && t !in m.blocks[b].waiters
    requires CallsInv(WithThread(m, t, Idle), b) && DataInv(WithThread(m, t, Idle), b)
    ensures Inv(Unlock(m, t, b))
  {
    UnlockLands(s, m, t, b);
    LocalKeepsInv(s, Unlock(m, t, b), t, b, s.blocks[b].number);
  }

  /** Taking a thread that performs no device call off a block leaves the calls on it alone. */
  lemma BystanderLeaves(s: State, t: Tid, b: nat)
    requires b in s.blocks && BlockInv(s, b) && t in s.threads && !Performs(s.threads[t], b)
    ensures CallsInv(WithThread(s, t, Idle), b) && DataInv(WithThread(s, t, Idle), b)
  {
    var idle := WithThread(s, t, Idle);
    assert forall u :: Reads(idle, u, b) == Reads(s, u, b) && Writes(idle, u, b) == Writes(s, u, b);
  }

  /** Taking away the thread that performs the only device call leaves no call. */
  lemma PerformerLeaves(s: State, t: Tid, b: nat, a: Activity)
    requires b in s.blocks && BlockInv(s, b) && t in s.threads && Performs(s.threads[t], b) && !Performs(a, b)
    ensures forall u :: !Reads(WithThread(s, t, a), u, b) && !Writes(WithThread(s, t, a), u, b)
  {
    assert s.threads[t].InRead? ==> Reads(s, t, b);
    assert s.threads[t].InWrite? ==> Writes(s, t, b);
    forall u
      ensures !Reads(WithThread(s, t, a), u, b) && !Writes(WithThread(s, t, a), u, b)
    {
      if u != t {
        assert Reads(WithThread(s, t, a), u, b) == Reads(s, u, b);
        assert Writes(WithThread(s, t, a), u, b) == Writes(s, u, b);
      }
    }
  }

  lemma LeaveKeepsInv(s: State, t: Tid, b: nat)
    requires Inv(s) && b in s.blocks && t in s.threads && Refers(s.threads[t], b)
    requires !Performs(s.threads[t], b) && t !in s.blocks[b].waiters
    ensures Inv(Unlock(s, t, b))
  {
    assert BlockInv(s, b);
    BystanderLeaves(s, t, b);
    assert s.blocks == s.blocks[b := s.blocks[b]];
    UnlockKeepsInv(s, s, t, b);
  }

  lemma FailedBlock(s: State, t: Tid, b: nat)
    requires b in s.blocks && BlockInv(s, b) && t in s.threads && Performs(s.threads[t], b)
    ensures Poised(s, Failed(s, b), t, b) && !Tabled(Failed(s, b), b)
    ensures var idle := WithThread(Failed(s, b), t, Idle);
            CallsInv(idle, b) && DataInv(idle, b)
  {
    PerformerLeaves(s, t, b, Idle);
    var idle := WithThread(Failed(s, b), t, Idle);
    assert forall u :: Reads(idle, u, b) == Reads(WithThread(s, t, Idle), u, b);
    assert forall u :: Writes(idle, u, b) == Writes(WithThread(s, t, Idle), u, b);
    assert s.threads[t].InRead? ==> Reads(s, t, b);
    assert s.threads[t].InWrite? ==> Writes(s, t, b);
    assert Tabled(s, b);
  }

  /** A device call fails: the block leaves the table, its waiters wake, and the caller unlocks it. */
  lemma FailureKeepsInv(s: State, t: Tid, b: nat)
    requires Inv(s) && b in s.blocks && t in s.threads && Performs(s.threads[t], b)
    ensures Inv(Unlock(Failed(s, b), t, b))
  {
    FailedBlock(s, t, b);
    UnlockKeepsInv(s, Failed(s, b), t, b);
  }

  lemma RetagIsLocal(s: State, t: Tid, b: nat, x: Block, a: Activity)
    requires b in s.blocks && t in s.threads && Refers(s.threads[t], b) && Refers(a, b)
    requires x.number == s.blocks[b].number && IdsInv(s)
    ensures Local(s, WithThread(WithBlock(s, b, x), t, a), t, b, x.number)
    ensures IdsInv(WithThread(WithBlock(s, b, x), t, a))
  {
    assert WithBlock(s, b, x).blocks.Keys == s.blocks.Keys;
  }

  lemma RetagBlock(s: State, t: Tid, b: nat, x: Block, a: Activity)
    requires b in s.blocks && BlockInv(s, b) && t in s.threads && Refers(s.threads[t], b) && Refers(a, b)
    requires x.number == s.blocks[b].number && x.refCount == s.blocks[b].refCount
    requires x.state == Error <==> s.blocks[b].state == Error
    requires var next := WithThread(WithBlock(s, b, x), t, a);
             WaitersInv(next, b) && CallsInv(next, b) && DataInv(next, b)
    ensures BlockInv(WithThread(WithBlock(s, b, x), t, a), b)
  {
    UsersAfter(s.threads, t, a, b);
  }

  /** Replaces block `b` and the activity of `t`, which refers to `b` before and after. */
  lemma RetagKeepsInv(s: State, t: Tid, b: nat, x: Block, a: Activity)
    requires Inv(s) && b in s.blocks && t in s.threads && Refers(s.threads[t], b) && Refers(a, b)
    requires x.number == s.blocks[b].number && x.refCount == s.blocks[b].refCount
    requires x.state == Error <==> s.blocks[b].state == Error
    requires var next := WithThread(WithBlock(s, b, x), t, a);
             WaitersInv(next, b) && CallsInv(next, b) && DataInv(next, b)
    ensures Inv(WithThread(WithBlock(s, b, x), t, a))
  {
    RetagIsLocal(s, t, b, x, a);
    RetagBlock(s, t, b, x, a);
    LocalKeepsInv(s, WithThread(WithBlock(s, b, x), t, a), t, b, x.number);
  }

  /** A device read succeeds. */
  lemma ReadSucceeds(s: State, t: Tid, b: nat)
    requires b in s.blocks && BlockInv(s, b) && Reads(s, t, b)
    requires forall k :: 0 <= k < |s.device| ==> |s.device[k]| == s.size
    ensures var x := s.blocks[b];
            var y := Block(x.number, Ok, x.refCount, s.device[x.number], []);
            var next := WithThread(WithBlock(s, b, y), t, Holding(b));
            x.state != Error && WaitersInv(next, b) && CallsInv(next, b) && DataInv(next, b)
  {
    var x := s.blocks[b];
    var next := WithThread(WithBlock(s, b, Block(x.number, Ok, x.refCount, s.device[x.number], [])), t, Holding(b));
    PerformerLeaves(s, t, b, Holding(b));
    assert forall u :: Reads(next, u, b) == Reads(WithThread(s, t, Holding(b)), u, b);
    assert forall u :: Writes(next, u, b) == Writes(WithThread(s, t, Holding(b)), u, b);
  }

  /** A thread that performs no device call changes its activity to another such. */
  lemma BystanderMoves(s: State, t: Tid, b: nat, a: Activity, waiters: seq<Tid>)
    requires b in s.blocks && BlockInv(s, b) && t in s.threads && !Performs(s.threads[t], b) && !Performs(a, b)
    ensures var next := WithThread(WithBlock(s, b, s.blocks[b].(waiters := waiters)), t, a);
            CallsInv(next, b) && DataInv(next, b)
  {
    var next := WithThread(WithBlock(s, b, s.blocks[b].(waiters := waiters)), t, a);
    assert forall u :: Reads(next, u, b) == Reads(s, u, b) && Writes(next, u, b) == Writes(s, u, b);
  }

  /** Joining the wait queue of a block with a device call in progress. */
  lemma JoinsQueue(s: State, t: Tid, b: nat, a: Activity)
    requires b in s.blocks && WaitersInv(s, b) && Awaits(a, b) && t in s.threads && t !in s.blocks[b].waiters
    requires s.blocks[b].state == Reading || s.blocks[b].state == Writing
    ensures WaitersInv(WithThread(WithBlock(s, b, s.blocks[b].(waiters := s.blocks[b].waiters + [t])), t, a), b)
  {
  }

  /** A write starts on an OK block: the bytes go into the block, and are in flight to the device. */
  lemma WriteStarts(s: State, t: Tid, b: nat, lo: nat, bytes: Data)
    requires b in s.blocks && BlockInv(s, b) && s.blocks[b].state == Ok && t in s.threads
    requires lo + |bytes| <= |s.blocks[b].data|
    ensures var x := s.blocks[b];
            var y := x.(state := Writing, data := Splice(x.data, lo, bytes));
            var next := WithThread(WithBlock(s, b, y), t, InWrite(b, lo, |bytes|));
            WaitersInv(next, b) && CallsInv(next, b) && DataInv(next, b)
  {
    var x := s.blocks[b];
    var y := x.(state := Writing, data := Splice(x.data, lo, bytes));
    var next := WithThread(WithBlock(s, b, y), t, InWrite(b, lo, |bytes|));
    assert Writes(next, t, b);
    forall u | u != t
      ensures !Reads(next, u, b) && !Writes(next, u, b)
    {
      assert Reads(next, u, b) == Reads(s, u, b) && Writes(next, u, b) == Writes(s, u, b);
    }
  }

  lemma TryWriteKeepsInv(s: State, t: Tid, b: nat, lo: nat, bytes: Data)
    requires Inv(s) && b in s.blocks && t in s.threads && Refers(s.threads[t], b)
    requires !Performs(s.threads[t], b) && t !in s.blocks[b].waiters && lo + |bytes| <= |s.blocks[b].data|
    ensures Inv(TryWrite(s, t, b, lo, bytes))
  {
    var x := s.blocks[b];
    match x.state
    case Error => LeaveKeepsInv(s, t, b);
    case Ok =>
      WriteStarts(s, t, b, lo, bytes);
      RetagKeepsInv(s, t, b, x.(state := Writing, data := Splice(x.data, lo, bytes)), InWrite(b, lo, |bytes|));
    case _ =>
      var a := AwaitWrite(b, lo, bytes);
      BystanderMoves(s, t, b, a, x.waiters + [t]);
      JoinsQueue(s, t, b, a);
      RetagKeepsInv(s, t, b, x.(waiters := x.waiters + [t]), a);
  }

  /** The device takes some of the bytes in flight. */
  lemma TearKeepsInv(s: State, t: Tid, torn: Data)
    requires Inv(s) && Enabled(s, Tear(t, torn))
    ensures Inv(Step(s, Tear(t, torn)))
  {
    TearLands(s, t, torn);
    LocalKeepsInv(s, Step(s, Tear(t, torn)), t, s.threads[t].block, s.blocks[s.threads[t].block].number);
  }

  lemma TearLands(s: State, t: Tid, torn: Data)
    requires Enabled(s, Tear(t, torn)) && BlockInv(s, s.threads[t].block)
    requires IdsInv(s) && TableInv(s) && s.threads[t].block < s.next
    requires forall k :: 0 <= k < |s.device| ==> |s.device[k]| == s.size
    ensures Landed(s, Step(s, Tear(t, torn)), t, s.threads[t].block, s.blocks[s.threads[t].block].number)
  {
    TornBlock(s, t, torn);
    assert Writes(s, t, s.threads[t].block);
    assert OnlyAt(s, Step(s, Tear(t, torn)), s.threads[t].block, s.blocks[s.threads[t].block].number);
  }

  lemma TornBlock(s: State, t: Tid, torn: Data)
    requires Enabled(s, Tear(t, torn)) && BlockInv(s, s.threads[t].block)
    ensures BlockInv(Step(s, Tear(t, torn)), s.threads[t].block)
  {
    var b := s.threads[t].block;
    var next := Step(s, Tear(t, torn));
    assert Writes(s, t, b);
    assert forall u :: Reads(next, u, b) == Reads(s, u, b) && Writes(next, u, b) == Writes(s, u, b);
    forall u | Writes(next, u, b)
      ensures next.threads[u].lo + next.threads[u].count <= next.size
      ensures AgreeOutside(next.blocks[b].data, next.device[next.blocks[b].number],
                           next.threads[u].lo, next.threads[u].lo + next.threads[u].count)
    {
      assert u == t;
    }
  }

  /** The device call of a write succeeds: block and device are equal again. */
  lemma WrittenBlock(s: State, t: Tid, b: nat)
    requires b in s.blocks && BlockInv(s, b) && Writes(s, t, b)
    requires forall k :: 0 <= k < |s.device| ==> |s.device[k]| == s.size
    ensures Poised(s, Written(s, t, b), t, b) && Tabled(Written(s, t, b), b)
    ensures forall k :: 0 <= k < |s.device| ==> |Written(s, t, b).device[k]| == s.size
    ensures var idle := WithThread(Written(s, t, b), t, Idle);
            CallsInv(idle, b) && DataInv(idle, b)
  {
    var idle := WithThread(Written(s, t, b), t, Idle);
    var x := s.blocks[b];
    PerformerLeaves(s, t, b, Idle);
    assert forall u :: Reads(idle, u, b) == Reads(WithThread(s, t, Idle), u, b);
    assert forall u :: Writes(idle, u, b) == Writes(WithThread(s, t, Idle), u, b);
    assert Written(s, t, b).device[x.number] == x.data;
  }

  lemma WriteDoneKeepsInv(s: State, t: Tid, b: nat)
    requires Inv(s) && b in s.blocks && Writes(s, t, b)
    requires s.blocks[b].number < |s.device| && s.threads[t].lo + s.threads[t].count <= |s.blocks[b].data|
    requires |s.device[s.blocks[b].number]| == |s.blocks[b].data|
    ensures Inv(Unlock(Written(s, t, b), t, b))
  {
    WrittenBlock(s, t, b);
    UnlockKeepsInv(s, Written(s, t, b), t, b);
  }

  /** A miss: a new block, read by this thread alone. */
  lemma MissKeepsInv(s: State, t: Tid, number: nat, garbage: Data)
    requires Inv(s) && Enabled(s, Lookup(t, number, garbage)) && number !in s.table
    ensures Inv(Step(s, Lookup(t, number, garbage)))
  {
    var next := Step(s, Lookup(t, number, garbage));
    var b := s.next;
    assert b !in s.blocks;
    assert Users(s.threads, b) == {};
    NewBlock(s, t, number, garbage);
    LocalKeepsInv(s, next, t, b, number);
  }

  lemma NewBlock(s: State, t: Tid, number: nat, garbage: Data)
    requires Enabled(s, Lookup(t, number, garbage)) && number !in s.table
    requires s.next !in s.blocks && Users(s.threads, s.next) == {} && IdsInv(s)
    ensures var next := Step(s, Lookup(t, number, garbage));
            BlockInv(next, s.next) && IdsInv(next) && Local(s, next, t, s.next, number)
  {
    var next := Step(s, Lookup(t, number, garbage));
    var b := s.next;
    UsersAfter(s.threads, t, InRead(b), b);
    assert Users(next.threads, b) == {t};
    assert Reads(next, t, b);
    forall u | u != t
      ensures !Reads(next, u, b) && !Writes(next, u, b)
    {
      assert u in s.threads && Refers(s.threads[u], b) ==> u in Users(s.threads, b);
    }
  }

  /** A whole block written without being read: new, and all of it in flight. */
  lemma OverwriteKeepsInv(s: State, t: Tid, number: nat, bytes: Data)
    requires Inv(s) && Enabled(s, Overwrite(t, number, bytes))
    ensures Inv(Step(s, Overwrite(t, number, bytes)))
  {
    var next := Step(s, Overwrite(t, number, bytes));
    var b := s.next;
    assert b !in s.blocks;
    assert Users(s.threads, b) == {};
    NewWholeBlock(s, t, number, bytes);
    LocalKeepsInv(s, next, t, b, number);
  }

  lemma NewWholeBlock(s: State, t: Tid, number: nat, bytes: Data)
    requires Enabled(s, Overwrite(t, number, bytes))
    requires s.next !in s.blocks && Users(s.threads, s.next) == {} && IdsInv(s) && |s.device[number]| == s.size
    ensures var next := Step(s, Overwrite(t, number, bytes));
            BlockInv(next, s.next) && IdsInv(next) && Local(s, next, t, s.next, number)
  {
    var next := Step(s, Overwrite(t, number, bytes));
    var b := s.next;
    UsersAfter(s.threads, t, InWrite(b, 0, s.size), b);
    assert Users(next.threads, b) == {t};
    assert Writes(next, t, b);
    forall u | u != t
      ensures !Reads(next, u, b) && !Writes(next, u, b)
    {
      assert u in s.threads && Refers(s.threads[u], b) ==> u in Users(s.threads, b);
    }
  }

  lemma HitIsLocal(s: State, t: Tid, b: nat)
    requires b in s.blocks && t in s.threads && s.threads[t].Idle? && IdsInv(s)
    ensures IdsInv(Hit(s, t, b)) && Local(s, Hit(s, t, b), t, b, s.blocks[b].number)
  {
    assert Hit(s, t, b).blocks.Keys == s.blocks.Keys;
  }

  lemma HitWaiters(s: State, t: Tid, b: nat)
    requires b in s.blocks && WaitersInv(s, b) && t in s.threads && s.threads[t].Idle?
    ensures WaitersInv(Hit(s, t, b), b)
  {
    assert t !in s.blocks[b].waiters;
  }

  lemma HitCalls(s: State, t: Tid, b: nat)
    requires b in s.blocks && CallsInv(s, b) && DataInv(s, b) && t in s.threads && s.threads[t].Idle?
    ensures CallsInv(Hit(s, t, b), b) && DataInv(Hit(s, t, b), b)
  {
    var next := Hit(s, t, b);
    assert forall u :: Reads(next, u, b) == Reads(s, u, b) && Writes(next, u, b) == Writes(s, u, b);
  }

  /** A hit: one more reference, and a place in the wait queue if the block is still being read. */
  lemma HitBlock(s: State, t: Tid, b: nat)
    requires b in s.blocks && BlockInv(s, b) && t in s.threads && s.threads[t].Idle?
    requires s.blocks[b].state != Error
    ensures BlockInv(Hit(s, t, b), b)
  {
    var next := Hit(s, t, b);
    UsersAfter(s.threads, t, next.threads[t], b);
    assert t !in Users(s.threads, b);
    HitWaiters(s, t, b);
    HitCalls(s, t, b);
    assert Tabled(next, b);
  }

  lemma HitKeepsInv(s: State, t: Tid, number: nat, garbage: Data)
    requires Inv(s) && Enabled(s, Lookup(t, number, garbage)) && number in s.table
    ensures Inv(Step(s, Lookup(t, number, garbage)))
  {
    var b := s.table[number];
    assert Tabled(s, b) && BlockInv(s, b);
    HitBlock(s, t, b);
    HitIsLocal(s, t, b);
    LocalKeepsInv(s, Hit(s, t, b), t, b, number);
  }

  lemma ReadDoneKeepsInv(s: State, t: Tid, success: bool)
    requires Inv(s) && Enabled(s, ReadDone(t, success))
    ensures Inv(Step(s, ReadDone(t, success)))
  {
    var b := s.threads[t].block;
    if success {
      var x := s.blocks[b];
      ReadSucceeds(s, t, b);
      RetagKeepsInv(s, t, b, Block(x.number, Ok, x.refCount, s.device[x.number], []), Holding(b));
    } else {
      FailureKeepsInv(s, t, b);
    }
  }

  lemma StepKeepsInv(s: State, op: Op)
    requires Inv(s) && Enabled(s, op)
    ensures Inv(Step(s, op))
  {
    var a := s.threads[op.t];
    match op
    case Lookup(t, number, garbage) =>
      if number in s.table {
        HitKeepsInv(s, t, number, garbage);
      } else {
        MissKeepsInv(s, t, number, garbage);
      }
    case ReadDone(t, success) => ReadDoneKeepsInv(s, t, success);
    case ResumeRead(t) => ResumeKeepsInv(s, t);
    case Overwrite(t, number, bytes) => OverwriteKeepsInv(s, t, number, bytes);
    case BeginWrite(t, lo, bytes) =>
      NotWaiting(s, t, a.block);
      TryWriteKeepsInv(s, t, a.block, lo, bytes);
    case ResumeWrite(t) => TryWriteKeepsInv(s, t, a.block, a.lo, a.bytes);
    case Tear(t, torn) => TearKeepsInv(s, t, torn);
    case WriteDone(t, success) =>
      if success {
        WriteDoneKeepsInv(s, t, a.block);
      } else {
        FailureKeepsInv(s, t, a.block);
      }
    case Release(t) =>
      NotWaiting(s, t, a.block);
      LeaveKeepsInv(s, t, a.block);
  }

  lemma NotWaiting(s: State, t: Tid, b: nat)
    requires b in s.blocks && BlockInv(s, b) && t in s.threads && !Awaits(s.threads[t], b)
    ensures t !in s.blocks[b].waiters
  {
  }

  lemma ResumedBlock(s: State, t: Tid, b: nat)
    requires b in s.blocks && BlockInv(s, b) && t in s.threads && s.threads[t] == AwaitRead(b)
    requires t !in s.blocks[b].waiters
    ensures var next := WithThread(WithBlock(s, b, s.blocks[b]), t, Holding(b));
            WaitersInv(next, b) && CallsInv(next, b) && DataInv(next, b)
  {
    BystanderMoves(s, t, b, Holding(b), s.blocks[b].waiters);
  }

  lemma ReaderResumes(s: State, t: Tid, b: nat)
    requires Inv(s) && b in s.blocks && t in s.threads && s.threads[t] == AwaitRead(b) && t !in s.blocks[b].waiters
    ensures Inv(WithThread(s, t, Holding(b)))
  {
    ResumedBlock(s, t, b);
    RetagKeepsInv(s, t, b, s.blocks[b], Holding(b));
    assert WithBlock(s, b, s.blocks[b]).blocks == s.blocks;
  }

  lemma ResumeKeepsInv(s: State, t: Tid)
    requires Inv(s) && Enabled(s, ResumeRead(t))
    ensures Inv(Step(s, ResumeRead(t)))
  {
    var b := s.threads[t].block;
    if s.blocks[b].state == Error {
      LeaveKeepsInv(s, t, b);
    } else {
      ReaderResumes(s, t, b);
    }
  }

  // ---------------------------------------------------------------- whole runs

  ghost predicate Legal(s: State, ops: seq<Op>)
    requires Inv(s)
    decreases |ops|
  {
    ops == [] || (Enabled(s, ops[0]) && (StepKeepsInv(s, ops[0]); Legal(Step(s, ops[0]), ops[1..])))
  }

  ghost function Run(s: State, ops: seq<Op>): State
    requires Inv(s) && Legal(s, ops)
    decreases |ops|
  {
    if ops == [] then s else StepKeepsInv(s, ops[0]); Run(Step(s, ops[0]), ops[1..])
  }

  /** An empty cache over any device, with every thread idle. */
  lemma BootHolds(size: nat, device: seq<Data>, threads: map<Tid, Activity>)
    requires forall k :: 0 <= k < |device| ==> |device[k]| == size
    requires forall t :: t in threads ==> threads[t].Idle?
    ensures Inv(State(size, device, map[], map[], threads, 0, []))
  {
  }

  /**
   Every tabled block is live, is not in error, equals its part of the device when it is OK, and
   differs from it only in the range in flight while it is being written.
   */
  ghost predicate Coherent(s: State) {
    forall k :: k in s.table ==>
      && s.table[k] in s.blocks && k < |s.device|
      && var x := s.blocks[s.table[k]];
      && x.number == k && x.state != Error
      && (x.state == Ok ==> x.data == s.device[k])
      && (forall t :: Writes(s, t, s.table[k]) ==>
            AgreeOutside(x.data, s.device[k], s.threads[t].lo, s.threads[t].lo + s.threads[t].count))
  }

  lemma InvIsCoherent(s: State)
    requires Inv(s)
    ensures Coherent(s)
  {
    forall k | k in s.table
      ensures s.table[k] in s.blocks && Tabled(s, s.table[k]) && BlockInv(s, s.table[k])
    {
    }
  }

  lemma {:induction false} RunKeepsInv(s: State, ops: seq<Op>)
    requires Inv(s) && Legal(s, ops)
    ensures Inv(Run(s, ops))
    decreases |ops|
  {
    if ops != [] {
      StepKeepsInv(s, ops[0]);
      RunKeepsInv(Step(s, ops[0]), ops[1..]);
    }
  }

  /** Cache and device agree whatever the interleaving of readers, writers, failures and torn writes. */
  lemma RunKeepsCacheCoherent(s: State, ops: seq<Op>)
    requires Inv(s) && Legal(s, ops)
    ensures Coherent(Run(s, ops))
  {
    RunKeepsInv(s, ops);
    InvIsCoherent(Run(s, ops));
  }

  /** At most one device call is in progress on a device block, even across a failed and a new cache block. */
  lemma OneCallPerDeviceBlock(s: State, t: Tid, u: Tid)
    requires Inv(s) && t in s.threads && u in s.threads
    requires s.threads[t].InRead? || s.threads[t].InWrite?
    requires s.threads[u].InRead? || s.threads[u].InWrite?
    requires s.blocks[s.threads[t].block].number == s.blocks[s.threads[u].block].number
    ensures t == u
  {
    var b, c := s.threads[t].block, s.threads[u].block;
    assert BlockInv(s, b) && BlockInv(s, c);
    assert Reads(s, t, b) || Writes(s, t, b);
    assert Reads(s, u, c) || Writes(s, u, c);
    assert Tabled(s, b) && Tabled(s, c);
  }

  /** A sleeping thread always has another thread whose device call will wake it. */
  lemma SleeperHasWaker(s: State, b: nat, t: Tid) returns (u: Tid)
    requires Inv(s) && b in s.blocks && t in s.blocks[b].waiters
    ensures u != t && u in s.threads && Performs(s.threads[u], b)
  {
    assert BlockInv(s, b);
    if s.blocks[b].state == Reading {
      u :| Reads(s, u, b);
    } else {
      u :| Writes(s, u, b);
    }
  }

  /** The one user of a block is its last. */
  lemma LastUser(s: State, t: Tid, b: nat)
    requires b in s.blocks && BlockInv(s, b) && t in s.threads && Refers(s.threads[t], b)
    ensures s.blocks[b].refCount == 1 <==> Users(s.threads, b) == {t}
    ensures s.blocks[b].refCount == 1 && !Awaits(s.threads[t], b) ==> s.blocks[b].waiters == []
  {
    var users := Users(s.threads, b);
    assert t in users;
    if |users| == 1 {
      SingleUser(users);
      if s.blocks[b].waiters != [] {
        assert s.blocks[b].waiters[0] in users;
      }
    }
  }

  /** The steps by which a thread leaves a block that is, or has just become, in error. */
  ghost predicate LeavesFailed(s: State, op: Op, b: nat)
    requires Enabled(s, op)
  {
    && b in s.blocks
    && Refers(s.threads[op.t], b)
    && match op
       case ReadDone(_, success) => !success
       case WriteDone(_, success) => !success
       case ResumeRead(_) => s.blocks[b].state == Error
       case ResumeWrite(_) => s.blocks[b].state == Error
       case BeginWrite(_, _, _) => s.blocks[b].state == Error
       case Release(_) => s.blocks[b].state == Error
       case _ => false
  }

  lemma UnlockFrees(m: State, t: Tid, b: nat, c: nat)
    requires b in m.blocks && c in m.blocks
    ensures c !in Unlock(m, t, b).blocks <==> c == b && m.blocks[b].state == Error && m.blocks[b].refCount == 1
  {
  }

  lemma StepFrees(s: State, op: Op, b: nat)
    requires Enabled(s, op) && b in s.blocks
    ensures b !in Step(s, op).blocks <==> LeavesFailed(s, op, b) && s.blocks[b].refCount == 1
  {
    var a := s.threads[op.t];
    if !a.Idle? {
      UnlockFrees(s, op.t, a.block, b);
      UnlockFrees(Failed(s, a.block), op.t, a.block, b);
      if op.WriteDone? {
        UnlockFrees(Written(s, op.t, a.block), op.t, a.block, b);
      }
    }
  }

  /** A block is given back exactly when its last user leaves it in error, and never under a waiter. */
  lemma FreedExactlyByLastUser(s: State, op: Op, b: nat)
    requires Inv(s) && Enabled(s, op) && b in s.blocks
    ensures b !in Step(s, op).blocks <==> LeavesFailed(s, op, b) && Users(s.threads, b) == {op.t}
    ensures b !in Step(s, op).blocks ==> s.blocks[b].waiters == []
  {
    StepFrees(s, op, b);
    if LeavesFailed(s, op, b) {
      LastUser(s, op.t, b);
    }
  }

  lemma SingleUser(users: set<Tid>)
    requires |users| == 1
    ensures exists t :: users == {t}
  {
    var t :| t in users;
    assert |users - {t}| == 0;
    assert users == {t};
  }
}
