/**
 Whole-block overwrites of cached blocks: the branch of IoBlockCacheWriteBuffer in
 kernel/src/io/bcache.c that finds the block in the table, takes no reference to it, and gives one
 back at the end all the same.

 Any number of threads may be inside such an overwrite, between any steps of the others. The debtors
 are the threads that are. The state is in order when that of BlockProtocol is, once each block is
 credited with the references its debtors have not taken.
 */
module BlockOverwrites {
  import opened Common
  import opened Blocks
  import opened BlockProtocol

  /** The debtors that write to the block or wait for it. */
  function Owed(threads: map<Tid, Activity>, debtors: set<Tid>, b: nat): set<Tid> {
    set t | t in debtors && t in threads && Refers(threads[t], b)
  }

  function Raised(x: Block, count: nat): Block {
    x.(refCount := x.refCount + count)
  }

  /** The state with the missing references counted. */
  function Credited(s: State, debtors: set<Tid>): State {
    s.(blocks := map b | b in s.blocks :: Raised(s.blocks[b], |Owed(s.threads, debtors, b)|))
  }

  /** Each debtor waits for its block or writes to it. */
  ghost predicate Inside(s: State, debtors: set<Tid>) {
    forall t :: t in debtors ==> t in s.threads && (s.threads[t].AwaitWrite? || s.threads[t].InWrite?)
  }

  ghost predicate InOrder(s: State, debtors: set<Tid>) {
    Inside(s, debtors) && Inv(Credited(s, debtors))
  }

  // ---------------------------------------------------------------- the steps

  /** A step of BlockProtocol, or the start of an overwrite of a cached block. */
  datatype Move = Plain(op: Op) | Start(t: Tid, number: nat, bytes: Data)

  ghost predicate CanStart(s: State, debtors: set<Tid>, t: Tid, number: nat, bytes: Data) {
    && t in s.threads && t !in debtors && s.threads[t].Idle?
    && number in s.table && s.table[number] in s.blocks
    && |bytes| == s.size && |bytes| <= |s.blocks[s.table[number]].data|
  }

  ghost predicate Possible(s: State, debtors: set<Tid>, move: Move) {
    match move
    case Plain(op) => Enabled(s, op)
    case Start(t, number, bytes) => CanStart(s, debtors, t, number, bytes)
  }

  function After(s: State, debtors: set<Tid>, move: Move): State
    requires Possible(s, debtors, move)
  {
    match move
    case Plain(op) => Step(s, op)
    case Start(t, number, bytes) => TryWrite(s, t, s.table[number], 0, bytes)
  }

  /** A debtor is one until its overwrite is over. */
  function DebtorsAfter(s: State, debtors: set<Tid>, move: Move): set<Tid>
    requires Possible(s, debtors, move)
  {
    match move
    case Plain(op) => if Leaves(s, op) then debtors - {op.t} else debtors
    case Start(t, _, _) => debtors + {t}
  }

  /** The steps by which a thread gives up its block. */
  predicate Leaves(s: State, op: Op)
    requires Enabled(s, op)
  {
    match op
    case ReadDone(_, success) => !success
    case ResumeRead(t) => s.blocks[s.threads[t].block].state == Error
    case BeginWrite(t, _, _) => s.blocks[s.threads[t].block].state == Error
    case ResumeWrite(t) => s.blocks[s.threads[t].block].state == Error
    case WriteDone(_, _) => true
    case Release(_) => true
    case _ => false
  }

  /** The block is, or has just come to be, in error. */
  predicate InError(s: State, op: Op)
    requires Enabled(s, op) && Leaves(s, op)
  {
    if op.ReadDone? then true
    else if op.WriteDone? then !op.success
    else s.blocks[s.threads[op.t].block].state == Error
  }

  /**
   A debtor does no harm if, at the moment it leaves, only debtors use the block, and the block is not
   in error or another debtor is still to leave it. A thread with a reference does no harm unless it
   leaves a block in error as the last such thread while a debtor is still there.
   */
  ghost predicate Harmless(s: State, debtors: set<Tid>, op: Op)
    requires Enabled(s, op)
  {
    Leaves(s, op) ==>
      var users := Users(s.threads, s.threads[op.t].block);
      if op.t in debtors then users <= debtors && (InError(s, op) ==> users != {op.t})
      else InError(s, op) && users - debtors == {op.t} ==> users !! debtors
  }

  // ---------------------------------------------------------------- crediting and stepping commute

  lemma OwedSame(threads: map<Tid, Activity>, debtors: set<Tid>, t: Tid, a: Activity, b: nat)
    requires t in threads && (t !in debtors || Refers(a, b) == Refers(threads[t], b))
    ensures Owed(threads[t := a], debtors, b) == Owed(threads, debtors, b)
  {
  }

  lemma CreditThread(s: State, debtors: set<Tid>, t: Tid, a: Activity)
    requires t in s.threads && (t !in debtors || (!a.Idle? && !s.threads[t].Idle? && a.block == s.threads[t].block))
    ensures Credited(WithThread(s, t, a), debtors) == WithThread(Credited(s, debtors), t, a)
  {
    forall b: nat
      ensures Owed(s.threads[t := a], debtors, b) == Owed(s.threads, debtors, b)
    {
      OwedSame(s.threads, debtors, t, a, b);
    }
  }

  lemma CreditBlock(s: State, debtors: set<Tid>, b: nat, x: Block)
    ensures Credited(WithBlock(s, b, x), debtors)
         == WithBlock(Credited(s, debtors), b, Raised(x, |Owed(s.threads, debtors, b)|))
  {
  }

  lemma CreditBoth(s: State, debtors: set<Tid>, b: nat, x: Block, t: Tid, a: Activity)
    requires t in s.threads && (t !in debtors || (!a.Idle? && !s.threads[t].Idle? && a.block == s.threads[t].block))
    ensures Credited(WithThread(WithBlock(s, b, x), t, a), debtors)
         == WithThread(WithBlock(Credited(s, debtors), b, Raised(x, |Owed(s.threads, debtors, b)|)), t, a)
  {
    CreditBlock(s, debtors, b, x);
    CreditThread(WithBlock(s, b, x), debtors, t, a);
  }

  lemma CreditFailed(s: State, debtors: set<Tid>, b: nat)
    requires b in s.blocks
    ensures Credited(Failed(s, b), debtors) == Failed(Credited(s, debtors), b)
  {
    var x := s.blocks[b];
    var y := Block(x.number, Error, x.refCount, x.data, []);
    CreditBlock(s, debtors, b, y);
    assert Failed(s, b) == WithBlock(s, b, y).(table := s.table - {x.number});
  }

  lemma CreditWritten(s: State, debtors: set<Tid>, t: Tid, success: bool)
    requires Enabled(s, WriteDone(t, success))
    ensures Enabled(Credited(s, debtors), WriteDone(t, success))
    ensures Credited(Written(s, t, s.threads[t].block), debtors) == Written(Credited(s, debtors), t, s.threads[t].block)
  {
  }

  lemma EnabledAlike(s: State, debtors: set<Tid>, op: Op)
    ensures Enabled(s, op) <==> Enabled(Credited(s, debtors), op)
  {
  }

  lemma LeavesAlike(s: State, debtors: set<Tid>, op: Op)
    requires Enabled(s, op)
    ensures Enabled(Credited(s, debtors), op) && Leaves(Credited(s, debtors), op) == Leaves(s, op)
  {
    EnabledAlike(s, debtors, op);
  }

  /** A new block is owed nothing. */
  lemma CreditNew(s: State, debtors: set<Tid>, b: nat, x: Block)
    requires b !in s.blocks && Owed(s.threads, debtors, b) == {}
    ensures Credited(WithBlock(s, b, x), debtors) == WithBlock(Credited(s, debtors), b, x)
  {
    CreditBlock(s, debtors, b, x);
  }

  lemma NothingOwed(s: State, debtors: set<Tid>, b: nat)
    requires InOrder(s, debtors) && b !in s.blocks
    ensures Owed(s.threads, debtors, b) == {}
  {
    var c := Credited(s, debtors);
    if t :| t in Owed(s.threads, debtors, b) {
      assert c.threads[t].block in c.blocks;
    }
  }

  lemma MissCommutes(s: State, debtors: set<Tid>, t: Tid, x: Block, table: map<nat, nat>, a: Activity)
    requires InOrder(s, debtors) && t in s.threads && t !in debtors
    ensures
      var threads := s.threads[t := a];
      Credited(State(s.size, s.device, table, s.blocks[s.next := x], threads, s.next + 1, s.freed), debtors)
      == State(s.size, s.device, table, Credited(s, debtors).blocks[s.next := x], threads, s.next + 1, s.freed)
  {
    var c := Credited(s, debtors);
    assert s.next !in c.blocks;
    NothingOwed(s, debtors, s.next);
    CreditNew(s, debtors, s.next, x);
    CreditThread(WithBlock(s, s.next, x), debtors, t, a);
  }

  /** What a hit makes of the block and of its thread. */
  function Looked(x: Block, t: Tid): Block {
    Block(x.number, x.state, x.refCount + 1, x.data, if x.state == Reading then x.waiters + [t] else x.waiters)
  }

  function Looking(x: Block, b: nat): Activity {
    if x.state == Reading then AwaitRead(b) else Holding(b)
  }

  lemma HitIs(s: State, t: Tid, b: nat)
    requires b in s.blocks
    ensures Hit(s, t, b) == WithThread(WithBlock(s, b, Looked(s.blocks[b], t)), t, Looking(s.blocks[b], b))
  {
  }

  lemma HitCommutes(s: State, debtors: set<Tid>, t: Tid, b: nat)
    requires t in s.threads && t !in debtors && b in s.blocks
    ensures Credited(Hit(s, t, b), debtors) == Hit(Credited(s, debtors), t, b)
  {
    var x, n := s.blocks[b], |Owed(s.threads, debtors, b)|;
    HitIs(s, t, b);
    HitIs(Credited(s, debtors), t, b);
    CreditBoth(s, debtors, b, Looked(x, t), t, Looking(x, b));
    assert Credited(s, debtors).blocks[b] == Raised(x, n) && Looked(Raised(x, n), t) == Raised(Looked(x, t), n);
  }

  /** What TryWrite makes of a block that is not in error, and of its thread. */
  function Tried(x: Block, t: Tid, lo: nat, bytes: Data): Block
    requires lo + |bytes| <= |x.data|
  {
    if x.state == Ok then x.(state := Writing, data := Splice(x.data, lo, bytes)) else x.(waiters := x.waiters + [t])
  }

  function Trying(x: Block, b: nat, lo: nat, bytes: Data): Activity {
    if x.state == Ok then InWrite(b, lo, |bytes|) else AwaitWrite(b, lo, bytes)
  }

  lemma TriedRaised(x: Block, n: nat, t: Tid, b: nat, lo: nat, bytes: Data)
    requires lo + |bytes| <= |x.data|
    ensures Tried(Raised(x, n), t, lo, bytes) == Raised(Tried(x, t, lo, bytes), n)
    ensures Trying(Raised(x, n), b, lo, bytes) == Trying(x, b, lo, bytes)
  {
  }

  lemma TryWriteIs(s: State, t: Tid, b: nat, lo: nat, bytes: Data)
    requires b in s.blocks && s.blocks[b].state != Error && lo + |bytes| <= |s.blocks[b].data|
    ensures TryWrite(s, t, b, lo, bytes)
         == WithThread(WithBlock(s, b, Tried(s.blocks[b], t, lo, bytes)), t, Trying(s.blocks[b], b, lo, bytes))
  {
  }

  lemma TryWriteCommutes(s: State, debtors: set<Tid>, t: Tid, b: nat, lo: nat, bytes: Data)
    requires t in s.threads && Refers(s.threads[t], b)
    requires b in s.blocks && s.blocks[b].state != Error && lo + |bytes| <= |s.blocks[b].data|
    ensures Credited(TryWrite(s, t, b, lo, bytes), debtors) == TryWrite(Credited(s, debtors), t, b, lo, bytes)
  {
    var x := s.blocks[b];
    TryWriteIs(s, t, b, lo, bytes);
    TryWriteIs(Credited(s, debtors), t, b, lo, bytes);
    TriedRaised(x, |Owed(s.threads, debtors, b)|, t, b, lo, bytes);
    CreditBoth(s, debtors, b, Tried(x, t, lo, bytes), t, Trying(x, b, lo, bytes));
    assert Credited(s, debtors).blocks[b] == Raised(x, |Owed(s.threads, debtors, b)|);
  }

  lemma ReadDoneCommutes(s: State, debtors: set<Tid>, t: Tid)
    requires Enabled(s, ReadDone(t, true)) && t !in debtors && Enabled(Credited(s, debtors), ReadDone(t, true))
    ensures Credited(Step(s, ReadDone(t, true)), debtors) == Step(Credited(s, debtors), ReadDone(t, true))
  {
    var b := s.threads[t].block;
    var x := s.blocks[b];
    CreditBoth(s, debtors, b, Block(x.number, Ok, x.refCount, s.device[x.number], []), t, Holding(b));
  }

  lemma TearCommutes(s: State, debtors: set<Tid>, t: Tid, torn: Data)
    requires Enabled(s, Tear(t, torn)) && Enabled(Credited(s, debtors), Tear(t, torn))
    ensures Credited(Step(s, Tear(t, torn)), debtors) == Step(Credited(s, debtors), Tear(t, torn))
  {
  }

  /** A step by which no one leaves a block does the same to the credited state. */
  lemma StayCommutes(s: State, debtors: set<Tid>, op: Op)
    requires InOrder(s, debtors) && Enabled(s, op) && !Leaves(s, op) && Enabled(Credited(s, debtors), op)
    ensures Credited(Step(s, op), debtors) == Step(Credited(s, debtors), op)
  {
    match op
    case Lookup(t, number, garbage) =>
      if number in s.table {
        HitCommutes(s, debtors, t, s.table[number]);
      } else {
        MissCommutes(s, debtors, t, Block(number, Reading, 1, garbage, []), s.table[number := s.next], InRead(s.next));
      }
    case ReadDone(t, _) => ReadDoneCommutes(s, debtors, t);
    case ResumeRead(t) => CreditThread(s, debtors, t, Holding(s.threads[t].block));
    case Overwrite(t, number, bytes) =>
      var x := Block(number, Writing, 1, bytes, []);
      MissCommutes(s, debtors, t, x, s.table[number := s.next], InWrite(s.next, 0, s.size));
    case BeginWrite(t, lo, bytes) => TryWriteCommutes(s, debtors, t, s.threads[t].block, lo, bytes);
    case ResumeWrite(t) =>
      TryWriteCommutes(s, debtors, t, s.threads[t].block, s.threads[t].lo, s.threads[t].bytes);
    case Tear(t, torn) => TearCommutes(s, debtors, t, torn);
  }

  lemma StayInside(s: State, debtors: set<Tid>, op: Op)
    requires Inside(s, debtors) && Enabled(s, op) && !Leaves(s, op)
    ensures Inside(Step(s, op), debtors)
  {
  }

  lemma StayKeepsOrder(s: State, debtors: set<Tid>, op: Op)
    requires InOrder(s, debtors) && Enabled(s, op) && !Leaves(s, op)
    ensures InOrder(Step(s, op), debtors)
  {
    EnabledAlike(s, debtors, op);
    StayCommutes(s, debtors, op);
    StayInside(s, debtors, op);
    StepKeepsInv(Credited(s, debtors), op);
  }

  // ---------------------------------------------------------------- leaving

  /** The state just before the block is unlocked. */
  function Poise(s: State, op: Op): State
    requires Enabled(s, op) && Leaves(s, op)
  {
    var b := s.threads[op.t].block;
    if op.ReadDone? || (op.WriteDone? && !op.success) then Failed(s, b)
    else if op.WriteDone? then Written(s, op.t, b)
    else s
  }

  lemma LeavingUnlocks(s: State, op: Op)
    requires Enabled(s, op) && Leaves(s, op)
    ensures
      var b := s.threads[op.t].block;
      var m := Poise(s, op);
      && b in s.blocks && b in m.blocks && Step(s, op) == Unlock(m, op.t, b) && m.threads == s.threads
      && m.blocks.Keys == s.blocks.Keys && m.blocks[b].refCount == s.blocks[b].refCount
      && (m.blocks[b].state == Error <==> InError(s, op))
  {
  }

  lemma PoiseCommutes(s: State, debtors: set<Tid>, op: Op)
    requires Enabled(s, op) && Leaves(s, op) && Enabled(Credited(s, debtors), op) && Leaves(Credited(s, debtors), op)
    ensures Credited(Poise(s, op), debtors) == Poise(Credited(s, debtors), op)
  {
    CreditFailed(s, debtors, s.threads[op.t].block);
    if op.WriteDone? {
      CreditWritten(s, debtors, op.t, op.success);
    }
  }

  lemma CountsOthers(s: State, debtors: set<Tid>, b: nat)
    requires InOrder(s, debtors) && b in s.blocks
    ensures Counted(s, debtors, b)
  {
    var c, users := Credited(s, debtors), Users(s.threads, b);
    assert BlockInv(c, b);
    assert c.threads == s.threads;
    assert Owed(s.threads, debtors, b) == users * debtors;
    assert users == (users - debtors) + users * debtors;
  }

  lemma OneLeft(users: set<Tid>, t: Tid)
    requires t in users
    ensures |users| == 1 <==> users == {t}
  {
    if |users| == 1 {
      SingleUser(users);
    }
  }

  lemma CreditFreed(m: State, debtors: set<Tid>, b: nat)
    ensures Credited(m.(blocks := m.blocks - {b}), debtors).blocks == Credited(m, debtors).blocks - {b}
  {
  }

  lemma FreeingCommutes(m: State, debtors: set<Tid>, t: Tid, b: nat)
    requires t in m.threads && t !in debtors && b in m.blocks && m.blocks[b].refCount == 1
    requires m.blocks[b].state == Error && Owed(m.threads, debtors, b) == {}
    ensures Credited(Unlock(m, t, b), debtors) == Unlock(Credited(m, debtors), t, b)
  {
    assert Credited(m, debtors).blocks[b] == m.blocks[b];
    CreditThread(m, debtors, t, Idle);
    CreditFreed(WithThread(m, t, Idle), debtors, b);
  }

  lemma KeepingCommutes(m: State, debtors: set<Tid>, t: Tid, b: nat)
    requires t in m.threads && t !in debtors && b in m.blocks && m.blocks[b].refCount > 0
    requires m.blocks[b].state == Error ==> m.blocks[b].refCount > 1
    ensures Credited(Unlock(m, t, b), debtors) == Unlock(Credited(m, debtors), t, b)
  {
    var x := m.blocks[b];
    CreditThread(m, debtors, t, Idle);
    OwedSame(m.threads, debtors, t, Idle, b);
    CreditBlock(WithThread(m, t, Idle), debtors, b, x.(refCount := x.refCount - 1));
    assert Credited(m, debtors).blocks[b] == Raised(x, |Owed(m.threads, debtors, b)|);
  }

  lemma UnlockCommutes(m: State, debtors: set<Tid>, t: Tid, b: nat)
    requires t in m.threads && t !in debtors && b in m.blocks && m.blocks[b].refCount > 0
    requires m.blocks[b].state == Error && m.blocks[b].refCount == 1 ==> Owed(m.threads, debtors, b) == {}
    ensures Credited(Unlock(m, t, b), debtors) == Unlock(Credited(m, debtors), t, b)
  {
    if m.blocks[b].state == Error && m.blocks[b].refCount == 1 {
      FreeingCommutes(m, debtors, t, b);
    } else {
      KeepingCommutes(m, debtors, t, b);
    }
  }

  lemma LeaveInside(s: State, debtors: set<Tid>, op: Op)
    requires Inside(s, debtors) && Enabled(s, op) && Leaves(s, op)
    ensures Inside(Step(s, op), debtors - {op.t})
    ensures Step(s, op).threads == s.threads[op.t := Idle]
  {
    LeavingUnlocks(s, op);
  }

  /** The block counts the threads that use it and are no debtors. */
  ghost predicate Counted(s: State, debtors: set<Tid>, b: nat) {
    var users := Users(s.threads, b);
    && b in s.blocks && s.blocks[b].refCount == |users - debtors|
    && Owed(s.threads, debtors, b) == users * debtors
    && |users| == |users - debtors| + |users * debtors|
  }

  /** A harmless leave does to the credited state what it does to the state. */
  lemma HolderLeaveCommutes(s: State, debtors: set<Tid>, op: Op)
    requires Enabled(s, op) && Leaves(s, op) && Harmless(s, debtors, op) && op.t !in debtors
    requires Counted(s, debtors, s.threads[op.t].block)
    requires Enabled(Credited(s, debtors), op) && Leaves(Credited(s, debtors), op)
    ensures Credited(Step(s, op), debtors) == Step(Credited(s, debtors), op)
  {
    var t, b := op.t, s.threads[op.t].block;
    LeavingUnlocks(s, op);
    LeavingUnlocks(Credited(s, debtors), op);
    PoiseCommutes(s, debtors, op);
    assert t in Users(s.threads, b) - debtors;
    OneLeft(Users(s.threads, b) - debtors, t);
    UnlockCommutes(Poise(s, op), debtors, t, b);
  }

  lemma DebtorLeaveCommutes(s: State, debtors: set<Tid>, op: Op)
    requires Enabled(s, op) && Leaves(s, op) && Harmless(s, debtors, op) && op.t in debtors
    requires Counted(s, debtors, s.threads[op.t].block)
    requires Enabled(Credited(s, debtors), op) && Leaves(Credited(s, debtors), op)
    ensures Credited(Step(s, op), debtors - {op.t}) == Step(Credited(s, debtors), op)
  {
    var t, b := op.t, s.threads[op.t].block;
    LeavingUnlocks(s, op);
    LeavingUnlocks(Credited(s, debtors), op);
    PoiseCommutes(s, debtors, op);
    var users := Users(s.threads, b);
    assert t in users && users - debtors == {} && users * debtors == users;
    OneLeft(users, t);
    DebtorUnlockCommutes(Poise(s, op), debtors, t, b);
  }

  lemma OwedLess(threads: map<Tid, Activity>, debtors: set<Tid>, t: Tid, b: nat)
    requires t in threads
    ensures Owed(threads[t := Idle], debtors - {t}, b) == Owed(threads, debtors, b) - {t}
  {
  }

  /** A debtor that leaves a block without references gives back the one it was credited with. */
  lemma DebtorUnlockCommutes(m: State, debtors: set<Tid>, t: Tid, b: nat)
    requires t in m.threads && t in debtors && b in m.blocks && m.blocks[b].refCount == 0 && Refers(m.threads[t], b)
    requires m.blocks[b].state == Error ==> |Owed(m.threads, debtors, b)| > 1
    ensures Credited(Unlock(m, t, b), debtors - {t}) == Unlock(Credited(m, debtors), t, b)
  {
    var o := Owed(m.threads, debtors, b);
    assert t in o;
    forall c: nat
      ensures Owed(m.threads[t := Idle], debtors - {t}, c) == if c == b then o - {t} else Owed(m.threads, debtors, c)
    {
      OwedLess(m.threads, debtors, t, c);
    }
    assert Credited(Unlock(m, t, b), debtors - {t}).blocks == Unlock(Credited(m, debtors), t, b).blocks;
  }

  /** A thread that still uses a block that is gone. */
  lemma GoneUnder(s: State, debtors: set<Tid>, u: Tid)
    requires u in s.threads && !s.threads[u].Idle? && s.threads[u].block !in s.blocks
    ensures !InOrder(s, debtors)
  {
    assert !ThreadsInv(Credited(s, debtors));
  }

  lemma BadBlock(s: State, debtors: set<Tid>, b: nat)
    requires b in s.blocks
    requires
      var count := s.blocks[b].refCount + |Owed(s.threads, debtors, b)|;
      count != |Users(s.threads, b)| || (s.blocks[b].state == Error && count == 0)
    ensures !InOrder(s, debtors)
  {
    assert !BlockInv(Credited(s, debtors), b);
  }

  lemma HolderHarms(s: State, debtors: set<Tid>, op: Op)
    requires Inside(s, debtors) && Enabled(s, op) && Leaves(s, op) && !Harmless(s, debtors, op) && op.t !in debtors
    requires Counted(s, debtors, s.threads[op.t].block)
    ensures !InOrder(Step(s, op), debtors)
  {
    var users := Users(s.threads, s.threads[op.t].block);
    LeavingUnlocks(s, op);
    LeaveInside(s, debtors, op);
    assert |users - debtors| == 1;
    var u :| u in users * debtors;
    GoneUnder(Step(s, op), debtors, u);
  }

  lemma DebtorUnlocks(m: State, debtors: set<Tid>, t: Tid, b: nat)
    requires Counted(m, debtors, b) && t in m.threads && t in debtors && Refers(m.threads[t], b)
    requires Users(m.threads, b) <= debtors ==> m.blocks[b].state == Error && Users(m.threads, b) == {t}
    ensures !InOrder(Unlock(m, t, b), debtors - {t})
  {
    var users, next := Users(m.threads, b), Unlock(m, t, b);
    OwedLess(m.threads, debtors, t, b);
    UsersAfter(m.threads, t, Idle, b);
    assert t in users && t in users * debtors;
    if users <= debtors {
      assert users - debtors == {} && Owed(m.threads, debtors, b) - {t} == {};
      BadBlock(next, debtors - {t}, b);
    } else {
      var u :| u in users && u !in debtors;
      assert u in users - debtors;
      if b !in next.blocks {
        GoneUnder(next, debtors - {t}, u);
      } else {
        BadBlock(next, debtors - {t}, b);
      }
    }
  }

  lemma DebtorHarms(s: State, debtors: set<Tid>, op: Op)
    requires Enabled(s, op) && Leaves(s, op) && !Harmless(s, debtors, op) && op.t in debtors
    requires Counted(s, debtors, s.threads[op.t].block)
    ensures !InOrder(Step(s, op), debtors - {op.t})
  {
    LeavingUnlocks(s, op);
    DebtorUnlocks(Poise(s, op), debtors, op.t, s.threads[op.t].block);
  }

  lemma LeaveCommutes(s: State, debtors: set<Tid>, op: Op)
    requires Enabled(s, op) && Leaves(s, op) && Harmless(s, debtors, op)
    requires Counted(s, debtors, s.threads[op.t].block)
    ensures Enabled(Credited(s, debtors), op)
    ensures Credited(Step(s, op), debtors - {op.t}) == Step(Credited(s, debtors), op)
  {
    LeavesAlike(s, debtors, op);
    if op.t in debtors {
      DebtorLeaveCommutes(s, debtors, op);
    } else {
      HolderLeaveCommutes(s, debtors, op);
      assert debtors - {op.t} == debtors;
    }
  }

  lemma HarmlessLeaveKeepsOrder(s: State, debtors: set<Tid>, op: Op)
    requires InOrder(s, debtors) && Enabled(s, op) && Leaves(s, op) && Harmless(s, debtors, op)
    requires Counted(s, debtors, s.threads[op.t].block)
    ensures InOrder(Step(s, op), debtors - {op.t})
  {
    LeaveCommutes(s, debtors, op);
    LeaveInside(s, debtors, op);
    StepKeepsInv(Credited(s, debtors), op);
  }

  /** Leaving a block keeps the cache in order exactly if it is harmless. */
  lemma LeaveKeepsOrderIff(s: State, debtors: set<Tid>, op: Op)
    requires InOrder(s, debtors) && Enabled(s, op) && Leaves(s, op)
    ensures InOrder(Step(s, op), debtors - {op.t}) <==> Harmless(s, debtors, op)
  {
    CountsOthers(s, debtors, s.threads[op.t].block);
    if Harmless(s, debtors, op) {
      HarmlessLeaveKeepsOrder(s, debtors, op);
    } else if op.t in debtors {
      DebtorHarms(s, debtors, op);
    } else {
      HolderHarms(s, debtors, op);
      assert debtors - {op.t} == debtors;
    }
  }

  // ---------------------------------------------------------------- starting

  /** The thread with a reference to the block. */
  function Held(s: State, t: Tid, b: nat): State
    requires b in s.blocks
  {
    WithThread(WithBlock(s, b, Raised(s.blocks[b], 1)), t, Holding(b))
  }

  lemma HeldCalls(s: State, t: Tid, b: nat)
    requires b in s.blocks && CallsInv(s, b) && DataInv(s, b) && t in s.threads && s.threads[t].Idle?
    ensures CallsInv(Held(s, t, b), b) && DataInv(Held(s, t, b), b)
  {
    var next := Held(s, t, b);
    assert forall u :: Reads(next, u, b) == Reads(s, u, b) && Writes(next, u, b) == Writes(s, u, b);
  }

  lemma HeldBlock(s: State, t: Tid, b: nat)
    requires b in s.blocks && BlockInv(s, b) && t in s.threads && s.threads[t].Idle? && s.blocks[b].state != Error
    ensures BlockInv(Held(s, t, b), b)
  {
    var next := Held(s, t, b);
    HeldCalls(s, t, b);
    UsersAfter(s.threads, t, Holding(b), b);
    assert t !in Users(s.threads, b) && t !in s.blocks[b].waiters;
    assert WaitersInv(next, b) && Tabled(next, b);
  }

  lemma HeldIsLocal(s: State, t: Tid, b: nat)
    requires b in s.blocks && t in s.threads && s.threads[t].Idle? && IdsInv(s)
    ensures IdsInv(Held(s, t, b)) && Local(s, Held(s, t, b), t, b, s.blocks[b].number)
  {
    assert Held(s, t, b).blocks.Keys == s.blocks.Keys;
  }

  lemma HeldKeepsInv(s: State, t: Tid, b: nat)
    requires Inv(s) && b in s.blocks && t in s.threads && s.threads[t].Idle? && s.blocks[b].state != Error
    ensures Inv(Held(s, t, b))
  {
    HeldBlock(s, t, b);
    HeldIsLocal(s, t, b);
    LocalKeepsInv(s, Held(s, t, b), t, b, s.blocks[b].number);
  }

  lemma OwedMore(threads: map<Tid, Activity>, debtors: set<Tid>, t: Tid, a: Activity, b: nat)
    requires t in threads && t !in debtors && Refers(a, b)
    ensures |Owed(threads[t := a], debtors + {t}, b)| == |Owed(threads, debtors, b)| + 1
    ensures forall c: nat :: c != b ==> Owed(threads[t := a], debtors + {t}, c) == Owed(threads, debtors, c)
  {
    assert Owed(threads[t := a], debtors + {t}, b) == Owed(threads, debtors, b) + {t};
  }

  lemma CreditStart(s: State, debtors: set<Tid>, t: Tid, b: nat, y: Block, a: Activity)
    requires t in s.threads && t !in debtors && Refers(a, b)
    ensures Credited(WithThread(WithBlock(s, b, y), t, a), debtors + {t})
         == WithThread(WithBlock(Credited(s, debtors), b, Raised(y, |Owed(s.threads, debtors, b)| + 1)), t, a)
  {
    OwedMore(s.threads, debtors, t, a, b);
  }

  lemma HeldForgotten(c: State, t: Tid, b: nat, y: Block, a: Activity)
    requires b in c.blocks
    ensures WithThread(WithBlock(Held(c, t, b), b, y), t, a) == WithThread(WithBlock(c, b, y), t, a)
  {
    assert c.blocks[b := Raised(c.blocks[b], 1)][b := y] == c.blocks[b := y];
    assert c.threads[t := Holding(b)][t := a] == c.threads[t := a];
  }

  /** Starting without a reference, credited, is starting with one. */
  lemma StartCommutes(s: State, debtors: set<Tid>, t: Tid, b: nat, bytes: Data)
    requires t in s.threads && t !in debtors && b in s.blocks && s.blocks[b].state != Error
    requires |bytes| <= |s.blocks[b].data|
    ensures Credited(TryWrite(s, t, b, 0, bytes), debtors + {t})
         == TryWrite(Held(Credited(s, debtors), t, b), t, b, 0, bytes)
  {
    var x, held, n := s.blocks[b], Held(Credited(s, debtors), t, b), |Owed(s.threads, debtors, b)| + 1;
    var y, a := Tried(x, t, 0, bytes), Trying(x, b, 0, bytes);
    assert held.blocks[b] == Raised(x, n);
    TryWriteIs(s, t, b, 0, bytes);
    TryWriteIs(held, t, b, 0, bytes);
    TriedRaised(x, n, t, b, 0, bytes);
    CreditStart(s, debtors, t, b, y, a);
    HeldForgotten(Credited(s, debtors), t, b, Raised(y, n), a);
  }

  lemma StartInside(s: State, debtors: set<Tid>, t: Tid, b: nat, bytes: Data)
    requires Inside(s, debtors) && t in s.threads && b in s.blocks && s.blocks[b].state != Error
    requires |bytes| <= |s.blocks[b].data|
    ensures Inside(TryWrite(s, t, b, 0, bytes), debtors + {t})
  {
  }

  lemma StartKeepsOrder(s: State, debtors: set<Tid>, t: Tid, number: nat, bytes: Data)
    requires InOrder(s, debtors) && CanStart(s, debtors, t, number, bytes)
    ensures InOrder(TryWrite(s, t, s.table[number], 0, bytes), debtors + {t})
  {
    var b, c := s.table[number], Credited(s, debtors);
    assert Tabled(c, b) && BlockInv(c, b);
    HeldStarts(c, t, b, bytes);
    StartCommutes(s, debtors, t, b, bytes);
    StartInside(s, debtors, t, b, bytes);
  }

  lemma HeldStarts(c: State, t: Tid, b: nat, bytes: Data)
    requires Inv(c) && b in c.blocks && t in c.threads && c.threads[t].Idle? && c.blocks[b].state != Error
    requires |bytes| <= |c.blocks[b].data|
    ensures Inv(TryWrite(Held(c, t, b), t, b, 0, bytes))
  {
    HeldKeepsInv(c, t, b);
    NotWaiting(Held(c, t, b), t, b);
    TryWriteKeepsInv(Held(c, t, b), t, b, 0, bytes);
  }

  // ---------------------------------------------------------------- whole runs

  /** Every step of every thread, debtor or not, keeps the cache in order exactly if it is harmless. */
  lemma MoveKeepsOrderIff(s: State, debtors: set<Tid>, move: Move)
    requires InOrder(s, debtors) && Possible(s, debtors, move)
    ensures InOrder(After(s, debtors, move), DebtorsAfter(s, debtors, move)) <==>
      (move.Plain? ==> Harmless(s, debtors, move.op))
  {
    match move
    case Start(t, number, bytes) => StartKeepsOrder(s, debtors, t, number, bytes);
    case Plain(op) =>
      if Leaves(s, op) {
        LeaveKeepsOrderIff(s, debtors, op);
      } else {
        StayKeepsOrder(s, debtors, op);
      }
  }

  /** A run with its states and the debtors in each. */
  datatype Trace =
    | Begin(state: State, debtors: set<Tid>)
    | Then(before: Trace, move: Move, state: State, debtors: set<Tid>)

  ghost predicate IsRun(run: Trace) {
    match run
    case Begin(_, _) => true
    case Then(before, move, next, debtors) =>
      && IsRun(before) && Possible(before.state, before.debtors, move)
      && next == After(before.state, before.debtors, move)
      && debtors == DebtorsAfter(before.state, before.debtors, move)
  }

  function First(run: Trace): Trace {
    match run
    case Begin(_, _) => run
    case Then(before, _, _, _) => First(before)
  }

  ghost predicate AlwaysInOrder(run: Trace) {
    InOrder(run.state, run.debtors) && (run.Then? ==> AlwaysInOrder(run.before))
  }

  ghost predicate AlwaysHarmless(run: Trace)
    requires IsRun(run)
  {
    run.Then? ==>
      && AlwaysHarmless(run.before)
      && (run.move.Plain? ==> Harmless(run.before.state, run.before.debtors, run.move.op))
  }

  /** Over any run, whatever the interleaving, the cache is in order throughout exactly if every step is harmless. */
  lemma {:induction false} RunInOrderIff(run: Trace)
    requires IsRun(run) && InOrder(First(run).state, First(run).debtors)
    ensures AlwaysInOrder(run) <==> AlwaysHarmless(run)
  {
    match run
    case Begin(_, _) =>
    case Then(before, move, _, _) =>
      RunInOrderIff(before);
      if AlwaysInOrder(before) {
        MoveKeepsOrderIff(before.state, before.debtors, move);
      }
  }

  lemma CoherentAlike(s: State, debtors: set<Tid>)
    requires Coherent(Credited(s, debtors))
    ensures Coherent(s)
  {
    var c := Credited(s, debtors);
    assert forall t, b :: Writes(c, t, b) <==> Writes(s, t, b);
  }

  /** Over such a run cache and device agree. */
  lemma HarmlessRunIsCoherent(run: Trace)
    requires IsRun(run) && InOrder(First(run).state, First(run).debtors) && AlwaysHarmless(run)
    ensures Coherent(run.state)
  {
    RunInOrderIff(run);
    InvIsCoherent(Credited(run.state, run.debtors));
    CoherentAlike(run.state, run.debtors);
  }

  // ---------------------------------------------------------------- one overwrite at a time

  lemma NoDebtors(s: State)
    ensures Credited(s, {}) == s && (InOrder(s, {}) <==> Inv(s))
  {
    assert forall b: nat :: Owed(s.threads, {}, b) == {};
    assert Credited(s, {}).blocks == s.blocks;
  }

  /** The one overwrite ends well exactly if its device call succeeds and no one else uses the block by then. */
  lemma OverwriteEndsInOrderIff(s: State, t: Tid, success: bool)
    requires InOrder(s, {t}) && Enabled(s, WriteDone(t, success))
    ensures Inv(Step(s, WriteDone(t, success))) <==> success && Users(s.threads, s.threads[t].block) == {t}
  {
    LeaveKeepsOrderIff(s, {t}, WriteDone(t, success));
    NoDebtors(Step(s, WriteDone(t, success)));
    assert {t} - {t} == {};
    assert t in Users(s.threads, s.threads[t].block);
  }

  /** Woken to a block in error, the one overwrite never ends well. */
  lemma OverwriteOfFailedBlockHarms(s: State, t: Tid)
    requires InOrder(s, {t}) && Enabled(s, ResumeWrite(t)) && s.blocks[s.threads[t].block].state == Error
    ensures !Inv(Step(s, ResumeWrite(t)))
  {
    LeaveKeepsOrderIff(s, {t}, ResumeWrite(t));
    NoDebtors(Step(s, ResumeWrite(t)));
    assert {t} - {t} == {};
    assert t in Users(s.threads, s.threads[t].block);
  }

  lemma OthersHarmIff(s: State, t: Tid, op: Op)
    requires InOrder(s, {t}) && Enabled(s, op) && op.t != t
    ensures InOrder(Step(s, op), {t}) <==> Harmless(s, {t}, op)
  {
    if Leaves(s, op) {
      LeaveKeepsOrderIff(s, {t}, op);
      assert {t} - {op.t} == {t};
    } else {
      StayKeepsOrder(s, {t}, op);
    }
  }

  /** While the one overwrite waits or writes, another thread's step breaks the cache exactly if it frees the block. */
  lemma OthersKeepOrderIff(s: State, t: Tid, op: Op)
    requires InOrder(s, {t}) && Enabled(s, op) && op.t != t
    ensures InOrder(Step(s, op), {t}) <==> s.threads[t].block in Step(s, op).blocks
  {
    OthersHarmIff(s, t, op);
    if InOrder(Step(s, op), {t}) {
      OtherThreads(s, op, t);
      UsedIsThere(Step(s, op), {t}, t);
    } else {
      FreedUnder(s, t, op);
    }
  }

  lemma OtherThreads(s: State, op: Op, t: Tid)
    requires Enabled(s, op) && op.t != t && t in s.threads
    ensures t in Step(s, op).threads && Step(s, op).threads[t] == s.threads[t]
  {
  }

  lemma UsedIsThere(s: State, debtors: set<Tid>, t: Tid)
    requires InOrder(s, debtors) && t in s.threads && !s.threads[t].Idle?
    ensures s.threads[t].block in s.blocks
  {
    assert ThreadsInv(Credited(s, debtors));
  }

  lemma FreedUnder(s: State, t: Tid, op: Op)
    requires InOrder(s, {t}) && Enabled(s, op) && op.t != t && !Harmless(s, {t}, op)
    ensures s.threads[t].block !in Step(s, op).blocks
  {
    var b := s.threads[op.t].block;
    var users := Users(s.threads, b);
    LeavingUnlocks(s, op);
    CountsOthers(s, {t}, b);
    var u :| u in users && u in {t};
    assert users - {t} == {op.t};
  }

  // ---------------------------------------------------------------- how it goes wrong

  lemma Extended(before: Trace, move: Move) returns (run: Trace)
    requires IsRun(before) && Possible(before.state, before.debtors, move)
    ensures IsRun(run) && First(run) == First(before)
    ensures run.state == After(before.state, before.debtors, move)
    ensures run.debtors == DebtorsAfter(before.state, before.debtors, move)
    ensures run.Then? && run.before == before && run.move == move
  {
    var s, debtors := before.state, before.debtors;
    run := Then(before, move, After(s, debtors, move), DebtorsAfter(s, debtors, move));
  }

  /** From a cache that is empty, with two idle threads. */
  ghost predicate FromBoot(run: Trace) {
    && IsRun(run) && Inv(First(run).state) && First(run).debtors == {}
    && First(run).state == State(1, [[0]], map[], map[], map[0 := Idle, 1 := Idle], 0, [])
  }

  /** A cache with the one block of a one-byte device, and two threads. */
  function Small(x: Block, a: Activity, c: Activity): State {
    State(1, [[0]], map[0 := 0], map[0 := x], map[0 := a, 1 := c], 1, [])
  }

  lemma SmallBlock(x: Block, a: Activity, c: Activity, y: Block)
    ensures WithBlock(Small(x, a, c), 0, y) == Small(y, a, c)
    ensures forall d :: WithThread(Small(x, a, c), 0, d) == Small(x, d, c)
    ensures forall d :: WithThread(Small(x, a, c), 1, d) == Small(x, a, d)
  {
    forall d
      ensures map[0 := a, 1 := c][0 := d] == map[0 := d, 1 := c] && map[0 := a, 1 := c][1 := d] == map[0 := a, 1 := d]
    {
    }
  }

  /** Thread 1 is reading the block. */
  lemma BeingRead() returns (run: Trace)
    ensures FromBoot(run) && run.debtors == {} && run.state == Small(Block(0, Reading, 1, [0], []), Idle, InRead(0))
  {
    var boot := State(1, [[0]], map[], map[], map[0 := Idle, 1 := Idle], 0, []);
    BootHolds(1, [[0]], boot.threads);
    run := Extended(Begin(boot, {}), Plain(Lookup(1, 0, [0])));
  }

  lemma ReadEnds()
    ensures
      var s := Small(Block(0, Reading, 1, [0], []), Idle, InRead(0));
      Enabled(s, ReadDone(1, true)) && Step(s, ReadDone(1, true)) == Small(Block(0, Ok, 1, [0], []), Idle, Holding(0))
  {
    SmallBlock(Block(0, Reading, 1, [0], []), Idle, InRead(0), Block(0, Ok, 1, [0], []));
    SmallBlock(Block(0, Ok, 1, [0], []), Idle, InRead(0), Block(0, Ok, 1, [0], []));
  }

  /** Thread 1 holds the block. */
  lemma BeingHeld() returns (run: Trace)
    ensures FromBoot(run) && run.debtors == {} && run.state == Small(Block(0, Ok, 1, [0], []), Idle, Holding(0))
  {
    run := BeingRead();
    ReadEnds();
    run := Extended(run, Plain(ReadDone(1, true)));
  }

  lemma Starts(count: nat, c: Activity)
    ensures
      var s := Small(Block(0, Ok, count, [0], []), Idle, c);
      && CanStart(s, {}, 0, 0, [1])
      && TryWrite(s, 0, 0, 0, [1]) == Small(Block(0, Writing, count, [1], []), InWrite(0, 0, 1), c)
  {
    assert Splice([0], 0, [1]) == [1];
    SmallBlock(Block(0, Ok, count, [0], []), Idle, c, Block(0, Writing, count, [1], []));
    SmallBlock(Block(0, Writing, count, [1], []), Idle, c, Block(0, Writing, count, [1], []));
  }

  /** A failed overwrite gives back a block that another thread is still reading. */
  lemma OverwriteFreesHeldBlock() returns (run: Trace)
    ensures FromBoot(run) && run.Then? && run.move == Plain(WriteDone(0, false)) && run.debtors == {}
    ensures 0 !in run.state.blocks && 1 in run.state.threads && run.state.threads[1] == Holding(0)
  {
    run := BeingHeld();
    Starts(1, Holding(0));
    run := Extended(run, Start(0, 0, [1]));
    run := Extended(run, Plain(WriteDone(0, false)));
  }

  /** The block is cached, and no one uses it. */
  lemma Unused() returns (run: Trace)
    ensures FromBoot(run) && run.debtors == {} && run.state == Small(Block(0, Ok, 0, [0], []), Idle, Idle)
  {
    run := BeingHeld();
    run := Extended(run, Plain(Release(1)));
    SmallBlock(Block(0, Ok, 1, [0], []), Idle, Holding(0), Block(0, Ok, 0, [0], []));
    SmallBlock(Block(0, Ok, 1, [0], []), Idle, Idle, Block(0, Ok, 0, [0], []));
  }

  /** The overwrite has started, and thread 1 has come in. */
  lemma LateReader() returns (run: Trace)
    ensures FromBoot(run) && run.debtors == {0}
    ensures run.state == Small(Block(0, Writing, 1, [1], []), InWrite(0, 0, 1), Holding(0))
    ensures run.Then? && run.before.Then? && run.before.move == Start(0, 0, [1])
    ensures Users(run.before.before.state.threads, 0) == {}
  {
    run := Unused();
    Starts(0, Idle);
    run := Extended(run, Start(0, 0, [1]));
    assert run.debtors == {0};
    run := Extended(run, Plain(Lookup(1, 0, [0])));
    SmallBlock(Block(0, Writing, 0, [1], []), InWrite(0, 0, 1), Idle, Block(0, Writing, 1, [1], []));
    SmallBlock(Block(0, Writing, 1, [1], []), InWrite(0, 0, 1), Idle, Block(0, Writing, 1, [1], []));
  }

  lemma CountIsShort(s: State)
    requires 0 in s.blocks && s.blocks[0].refCount == 0 && 1 in s.threads && s.threads[1] == Holding(0)
    ensures !Inv(s)
  {
    assert 1 in Users(s.threads, 0);
    assert !BlockInv(s, 0);
  }

  /** No one uses the block at the start and the call succeeds, yet a thread that comes in loses its reference. */
  lemma LateReaderLosesReference() returns (run: Trace)
    ensures FromBoot(run) && run.Then? && run.move == Plain(WriteDone(0, true)) && run.debtors == {}
    ensures run.before.Then? && run.before.before.Then? && run.before.before.move == Start(0, 0, [1])
    ensures Users(run.before.before.before.state.threads, 0) == {}
    ensures 1 in run.state.threads && run.state.threads[1] == Holding(0)
    ensures 0 in run.state.blocks && run.state.blocks[0].refCount == 0 && !Inv(run.state)
  {
    run := LateReader();
    run := Extended(run, Plain(WriteDone(0, true)));
    CountIsShort(run.state);
  }

  /** The overwrite waits for a read; the read fails, and the block is freed under the waiting thread. */
  lemma WaitingOverwriterLosesBlock() returns (run: Trace)
    ensures FromBoot(run) && run.Then? && run.move == Plain(ReadDone(1, false)) && run.debtors == {0}
    ensures 0 !in run.state.blocks && 0 in run.state.threads && run.state.threads[0] == AwaitWrite(0, 0, [1])
  {
    run := BeingRead();
    run := Extended(run, Start(0, 0, [1]));
    run := Extended(run, Plain(ReadDone(1, false)));
  }
}
