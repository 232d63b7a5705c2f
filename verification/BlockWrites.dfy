/**
 What readers and writers of the block cache get, whatever runs in between: kernel/src/io/bcache.c.

 A write that succeeds leaves on the device the bytes it was called with, in the place it was called
 with, and the rest of the block as it was when the write began. A reader holds the block it asked for.
 The runs are those of BlockOverwrites, so that cached blocks may be overwritten meanwhile.
 */
module BlockWrites {
  import opened Common
  import opened Blocks
  import opened BlockProtocol
  import opened BlockOverwrites

  /** The thread whose move it is. */
  function Mover(move: Move): Tid {
    match move
    case Plain(op) => op.t
    case Start(t, _, _) => t
  }

  // ---------------------------------------------------------------- while a write is in flight

  /** No other thread has a device call on the same device block. */
  ghost predicate Alone(s: State, t: Tid)
    requires t in s.threads && !s.threads[t].Idle? && s.threads[t].block in s.blocks
  {
    forall u :: u in s.threads && u != t && (s.threads[u].InRead? || s.threads[u].InWrite?) ==>
      && s.threads[u].block in s.blocks
      && s.blocks[s.threads[u].block].number != s.blocks[s.threads[t].block].number
  }

  /** The thread writes to its block, alone. */
  ghost predicate Writer(s: State, t: Tid) {
    && t in s.threads && s.threads[t].InWrite? && s.threads[t].block in s.blocks && s.next !in s.blocks
    && var a := s.threads[t];
    && var x := s.blocks[a.block];
    && x.state == Writing && x.number < |s.device| && |s.device[x.number]| == |x.data|
    && a.lo + a.count <= |x.data| && Alone(s, t)
  }

  lemma InOrderWriter(s: State, debtors: set<Tid>, t: Tid)
    requires InOrder(s, debtors) && t in s.threads && s.threads[t].InWrite?
    ensures Writer(s, t)
  {
    var c, b := Credited(s, debtors), s.threads[t].block;
    InOrderAlone(s, debtors, t);
    assert BlockInv(c, b) && Writes(c, t, b);
    assert s.next !in c.blocks;
  }

  lemma InOrderAlone(s: State, debtors: set<Tid>, t: Tid)
    requires InOrder(s, debtors) && t in s.threads && s.threads[t].InWrite?
    ensures s.threads[t].block in s.blocks && Alone(s, t)
  {
    var c, b := Credited(s, debtors), s.threads[t].block;
    UsedIsThere(s, debtors, t);
    forall u | u in s.threads && u != t && (s.threads[u].InRead? || s.threads[u].InWrite?)
      ensures s.threads[u].block in s.blocks && s.blocks[s.threads[u].block].number != s.blocks[b].number
    {
      UsedIsThere(s, debtors, u);
      if c.blocks[s.threads[u].block].number == c.blocks[b].number {
        OneCallPerDeviceBlock(c, t, u);
      }
    }
  }

  /** The write and the block it writes are untouched, and so is the device block outside the range in flight. */
  ghost predicate Undisturbed(s: State, next: State, t: Tid)
    requires Writer(s, t)
  {
    var a := s.threads[t];
    && t in next.threads && next.threads[t] == a && a.block in next.blocks
    && next.blocks[a.block].number == s.blocks[a.block].number && next.blocks[a.block].data == s.blocks[a.block].data
    && |next.device| == |s.device|
    && AgreeOutside(next.device[s.blocks[a.block].number], s.device[s.blocks[a.block].number], a.lo, a.lo + a.count)
  }

  lemma UnlockUndisturbed(s: State, m: State, t: Tid, u: Tid, b: nat)
    requires Writer(s, t) && Undisturbed(s, m, t) && u != t && b in m.blocks
    requires m.blocks[s.threads[t].block].state != Error
    ensures Undisturbed(s, Unlock(m, u, b), t)
  {
  }

  lemma TryWriteUndisturbed(s: State, t: Tid, u: Tid, b: nat, lo: nat, bytes: Data)
    requires Writer(s, t) && u != t && b in s.blocks && lo + |bytes| <= |s.blocks[b].data|
    ensures Undisturbed(s, TryWrite(s, u, b, lo, bytes), t)
  {
    if s.blocks[b].state == Error {
      UnlockUndisturbed(s, s, t, u, b);
    }
  }

  lemma CallUndisturbed(s: State, t: Tid, op: Op)
    requires Writer(s, t) && Enabled(s, op) && op.t != t && (op.ReadDone? || op.WriteDone?)
    ensures Undisturbed(s, Step(s, op), t)
  {
    var b := s.threads[op.t].block;
    assert s.blocks[b].number != s.blocks[s.threads[t].block].number;
    if op.WriteDone? && op.success {
      UnlockUndisturbed(s, Written(s, op.t, b), t, op.t, b);
    } else if !op.success {
      UnlockUndisturbed(s, Failed(s, b), t, op.t, b);
    }
  }

  lemma OtherUndisturbed(s: State, t: Tid, op: Op)
    requires Writer(s, t) && Enabled(s, op) && op.t != t
    ensures Undisturbed(s, Step(s, op), t)
  {
    match op
    case Lookup(_, _, _) =>
    case ReadDone(_, _) => CallUndisturbed(s, t, op);
    case ResumeRead(u) =>
      if s.blocks[s.threads[u].block].state == Error {
        UnlockUndisturbed(s, s, t, u, s.threads[u].block);
      }
    case Overwrite(_, _, _) =>
    case BeginWrite(u, lo, bytes) => TryWriteUndisturbed(s, t, u, s.threads[u].block, lo, bytes);
    case ResumeWrite(u) =>
      TryWriteUndisturbed(s, t, u, s.threads[u].block, s.threads[u].lo, s.threads[u].bytes);
    case Tear(u, _) =>
      assert s.blocks[s.threads[u].block].number != s.blocks[s.threads[t].block].number;
    case WriteDone(_, _) => CallUndisturbed(s, t, op);
    case Release(u) => UnlockUndisturbed(s, s, t, u, s.threads[u].block);
  }

  lemma TearUndisturbed(s: State, t: Tid, torn: Data)
    requires Writer(s, t) && Enabled(s, Tear(t, torn))
    ensures Undisturbed(s, Step(s, Tear(t, torn)), t)
  {
  }

  /** The moves a write in flight goes through: those of other threads, and its own bytes reaching the device. */
  predicate Passing(move: Move, t: Tid) {
    Mover(move) != t || (move.Plain? && move.op.Tear?)
  }

  lemma MoveUndisturbed(s: State, debtors: set<Tid>, t: Tid, move: Move)
    requires Writer(s, t) && Possible(s, debtors, move) && Passing(move, t)
    ensures Undisturbed(s, After(s, debtors, move), t)
  {
    match move
    case Start(u, number, bytes) => TryWriteUndisturbed(s, t, u, s.table[number], 0, bytes);
    case Plain(op) =>
      if op.t == t {
        TearUndisturbed(s, t, op.torn);
      } else {
        OtherUndisturbed(s, t, op);
      }
  }

  // ---------------------------------------------------------------- what was asked for

  ghost predicate Busy(s: State, b: nat) {
    b in s.blocks && (s.blocks[b].state == Reading || s.blocks[b].state == Writing)
  }

  /** The block holds the device block of that number, and is OK. */
  ghost predicate Ready(s: State, b: nat, number: nat) {
    b in s.blocks && s.blocks[b].state == Ok && s.blocks[b].number == number < |s.device|
  }

  /** The block that an own move of the thread is about. */
  ghost predicate About(s: State, t: Tid, b: nat) {
    t in s.threads && Refers(s.threads[t], b)
  }

  /** The thread was called to write `bytes` at `lo`, and has since had to wait for the block. */
  ghost predicate Asked(run: Trace, t: Tid, b: nat, lo: nat, bytes: Data) {
    run.Then? &&
    if Mover(run.move) != t then Asked(run.before, t, b, lo, bytes)
    else
      var s := run.before.state;
      match run.move
      case Start(_, number, given) =>
        number in s.table && s.table[number] == b && Busy(s, b) && lo == 0 && bytes == given
      case Plain(op) =>
        match op
        case BeginWrite(_, at, given) => About(s, t, b) && Busy(s, b) && lo == at && bytes == given
        case ResumeWrite(_) => About(s, t, b) && Busy(s, b) && Asked(run.before, t, b, lo, bytes)
        case _ => false
  }

  /**
   The thread's write of `bytes` at `lo` to a device block is with the device; `before` is what the
   device block held when that began. The write may have been called long before, and have waited.
   */
  ghost predicate InFlight(run: Trace, t: Tid, number: nat, lo: nat, bytes: Data, before: Data) {
    run.Then? &&
    if Passing(run.move, t) then InFlight(run.before, t, number, lo, bytes, before)
    else
      var s := run.before.state;
      && number < |s.device| && before == s.device[number]
      && match run.move
         case Start(_, given, data) =>
           given == number && given in s.table && Ready(s, s.table[given], number) && lo == 0 && bytes == data
         case Plain(op) =>
           match op
           case Overwrite(_, given, data) => given == number && lo == 0 && bytes == data
           case BeginWrite(_, at, data) =>
             lo == at && bytes == data && exists b :: About(s, t, b) && Ready(s, b, number)
           case ResumeWrite(_) =>
             exists b :: About(s, t, b) && Ready(s, b, number) && Asked(run.before, t, b, lo, bytes)
           case _ => false
  }

  lemma StartLeavesOthers(s: State, debtors: set<Tid>, move: Move, t: Tid)
    requires Possible(s, debtors, move) && Mover(move) != t && t in s.threads
    ensures t in After(s, debtors, move).threads && After(s, debtors, move).threads[t] == s.threads[t]
  {
    if move.Plain? {
      OtherThreads(s, move.op, t);
    }
  }

  /** A thread that waits keeps what it was called with. */
  lemma {:induction false} AskedIsKept(run: Trace, t: Tid, b: nat, lo: nat, bytes: Data)
    requires IsRun(run) && Asked(run, t, b, lo, bytes)
    ensures t in run.state.threads && run.state.threads[t] == AwaitWrite(b, lo, bytes)
  {
    if Mover(run.move) != t {
      AskedIsKept(run.before, t, b, lo, bytes);
      StartLeavesOthers(run.before.state, run.before.debtors, run.move, t);
    } else if run.move.Plain? && run.move.op.ResumeWrite? {
      AskedIsKept(run.before, t, b, lo, bytes);
    }
  }

  /** The bytes are in the block, and the device has them or what it had, within the range and nowhere else. */
  ghost predicate Flying(s: State, t: Tid, number: nat, lo: nat, bytes: Data, before: Data) {
    && Writer(s, t) && s.threads[t].lo == lo && s.threads[t].count == |bytes|
    && var x := s.blocks[s.threads[t].block];
    && x.number == number && x.data[lo..lo + |bytes|] == bytes
    && AgreeOutside(s.device[number], before, lo, lo + |bytes|)
  }

  lemma WriteTakesOff(s: State, debtors: set<Tid>, t: Tid, b: nat, number: nat, lo: nat, bytes: Data)
    requires InOrder(s, debtors) && Ready(s, b, number) && lo + |bytes| <= |s.blocks[b].data|
    requires InOrder(TryWrite(s, t, b, lo, bytes), debtors + {t}) || InOrder(TryWrite(s, t, b, lo, bytes), debtors)
    ensures Flying(TryWrite(s, t, b, lo, bytes), t, number, lo, bytes, s.device[number])
  {
    var next := TryWrite(s, t, b, lo, bytes);
    assert next.threads[t] == InWrite(b, lo, |bytes|);
    if InOrder(next, debtors) {
      InOrderWriter(next, debtors, t);
    } else {
      InOrderWriter(next, debtors + {t}, t);
    }
    assert next.blocks[b].data[lo..lo + |bytes|] == bytes;
  }

  lemma StaysAloft(s: State, debtors: set<Tid>, t: Tid, move: Move, number: nat, lo: nat, bytes: Data, before: Data)
    requires Flying(s, t, number, lo, bytes, before) && Possible(s, debtors, move) && Passing(move, t)
    requires InOrder(After(s, debtors, move), DebtorsAfter(s, debtors, move))
    ensures Flying(After(s, debtors, move), t, number, lo, bytes, before)
  {
    MoveUndisturbed(s, debtors, t, move);
    InOrderWriter(After(s, debtors, move), DebtorsAfter(s, debtors, move), t);
  }

  lemma TakesOff(run: Trace, t: Tid, number: nat, lo: nat, bytes: Data, before: Data)
    requires IsRun(run) && AlwaysInOrder(run) && InFlight(run, t, number, lo, bytes, before)
    requires run.Then? && !Passing(run.move, t)
    ensures Flying(run.state, t, number, lo, bytes, before)
  {
    var s, debtors := run.before.state, run.before.debtors;
    match run.move
    case Start(_, given, _) => WriteTakesOff(s, debtors, t, s.table[given], number, 0, bytes);
    case Plain(op) =>
      match op
      case Overwrite(_, _, _) =>
        InOrderWriter(run.state, run.debtors, t);
        assert bytes[0..|bytes|] == bytes;
      case BeginWrite(_, _, _) => WriteTakesOff(s, debtors, t, s.threads[t].block, number, lo, bytes);
      case ResumeWrite(_) =>
        var b :| About(s, t, b) && Ready(s, b, number) && Asked(run.before, t, b, lo, bytes);
        AskedIsKept(run.before, t, b, lo, bytes);
        WriteTakesOff(s, debtors, t, b, number, lo, bytes);
  }

  lemma {:induction false} FlightHolds(run: Trace, t: Tid, number: nat, lo: nat, bytes: Data, before: Data)
    requires IsRun(run) && AlwaysInOrder(run) && InFlight(run, t, number, lo, bytes, before)
    ensures Flying(run.state, t, number, lo, bytes, before)
  {
    if Passing(run.move, t) {
      FlightHolds(run.before, t, number, lo, bytes, before);
      StaysAloft(run.before.state, run.before.debtors, t, run.move, number, lo, bytes, before);
    } else {
      TakesOff(run, t, number, lo, bytes, before);
    }
  }

  lemma Lands(s: State, t: Tid, number: nat, lo: nat, bytes: Data, before: Data)
    requires Flying(s, t, number, lo, bytes, before) && Enabled(s, WriteDone(t, true))
    ensures
      var device := Step(s, WriteDone(t, true)).device;
      && |device| == |s.device| && |device[number]| == |before| && lo + |bytes| <= |before|
      && device[number][lo..lo + |bytes|] == bytes
      && (forall i :: 0 <= i < |before| && !(lo <= i < lo + |bytes|) ==> device[number][i] == before[i])
      && (forall k :: 0 <= k < |device| && k != number ==> device[k] == s.device[k])
  {
    var device := Step(s, WriteDone(t, true)).device;
    assert device[number] == Splice(s.device[number], lo, bytes);
  }

  /**
   A write that succeeds has put its bytes, and nothing else, on the device: whatever other threads did
   in between, and whether or not it had to wait for the block first.
   */
  lemma WriteReachesDevice(run: Trace, t: Tid, number: nat, lo: nat, bytes: Data, before: Data)
    requires IsRun(run) && InOrder(First(run).state, First(run).debtors) && AlwaysHarmless(run)
    requires InFlight(run, t, number, lo, bytes, before) && Enabled(run.state, WriteDone(t, true))
    ensures
      var device := Step(run.state, WriteDone(t, true)).device;
      && number < |device| == |run.state.device| && |device[number]| == |before| && lo + |bytes| <= |before|
      && device[number][lo..lo + |bytes|] == bytes
      && (forall i :: 0 <= i < |before| && !(lo <= i < lo + |bytes|) ==> device[number][i] == before[i])
      && (forall k :: 0 <= k < |device| && k != number ==> device[k] == run.state.device[k])
    ensures
      var b, next := run.state.threads[t].block, Step(run.state, WriteDone(t, true));
      next.threads[t] == Idle && next.table == run.state.table && b in next.blocks && next.blocks[b].state == Ok
  {
    RunInOrderIff(run);
    FlightHolds(run, t, number, lo, bytes, before);
    Lands(run.state, t, number, lo, bytes, before);
    CallEnds(run.state, t, true);
  }

  /** How a write ends: the block is OK and still cached, or it is in error and no longer found; nobody waits for it. */
  lemma CallEnds(s: State, t: Tid, success: bool)
    requires Writer(s, t) && Enabled(s, WriteDone(t, success))
    ensures
      var b, next := s.threads[t].block, Step(s, WriteDone(t, success));
      && next.threads[t] == Idle
      && (success ==> next.table == s.table && b in next.blocks && next.blocks[b].state == Ok)
      && (!success ==> next.device == s.device && s.blocks[b].number !in next.table)
      && (b in next.blocks ==> next.blocks[b].waiters == [] && (next.blocks[b].state == Error <==> !success))
  {
  }

  /** A write that fails has changed the device within its range at most, and its block is not found any more. */
  lemma FailedWriteStaysInRange(run: Trace, t: Tid, number: nat, lo: nat, bytes: Data, before: Data)
    requires IsRun(run) && InOrder(First(run).state, First(run).debtors) && AlwaysHarmless(run)
    requires InFlight(run, t, number, lo, bytes, before) && Enabled(run.state, WriteDone(t, false))
    ensures
      var next := Step(run.state, WriteDone(t, false));
      && number < |next.device| && |next.device[number]| == |before| && number !in next.table
      && next.threads[t] == Idle
      && (forall i :: 0 <= i < |before| && !(lo <= i < lo + |bytes|) ==> next.device[number][i] == before[i])
  {
    RunInOrderIff(run);
    FlightHolds(run, t, number, lo, bytes, before);
    CallEnds(run.state, t, false);
  }

  /** No cached block is overwritten in the run. */
  predicate NoOverwrites(run: Trace) {
    match run
    case Begin(_, debtors) => debtors == {}
    case Then(before, move, _, _) => NoOverwrites(before) && move.Plain?
  }

  /** Without such overwrites every run is harmless, so that the results hold of every interleaving of BlockProtocol. */
  lemma {:induction false} PlainRunIsHarmless(run: Trace)
    requires IsRun(run) && NoOverwrites(run)
    ensures AlwaysHarmless(run) && run.debtors == {}
  {
    if run.Then? {
      PlainRunIsHarmless(run.before);
    }
  }

  // ---------------------------------------------------------------- readers

  lemma NumbersStay(s: State, debtors: set<Tid>, move: Move, b: nat)
    requires Possible(s, debtors, move) && b in s.blocks && s.next !in s.blocks && b in After(s, debtors, move).blocks
    ensures After(s, debtors, move).blocks[b].number == s.blocks[b].number
  {
    if move.Plain? {
      match move.op
      case BeginWrite(_, _, _) =>
      case ResumeWrite(_) =>
      case WriteDone(_, _) =>
      case _ =>
    }
  }

  ghost predicate Sound(s: State, b: nat) {
    b in s.blocks && s.blocks[b].state != Error
  }

  /** The thread has asked for a device block, and its read has not failed. */
  ghost predicate Looked(run: Trace, t: Tid, number: nat) {
    run.Then? &&
    if Mover(run.move) != t then Looked(run.before, t, number)
    else
      run.move.Plain? &&
      match run.move.op
      case Lookup(_, given, _) => given == number
      case ReadDone(_, success) => success && Looked(run.before, t, number)
      case ResumeRead(_) =>
        Looked(run.before, t, number) && exists b :: About(run.before.state, t, b) && Sound(run.before.state, b)
      case _ => false
  }

  /** It reads, waits for or holds the cache block of that number. */
  ghost predicate Reader(s: State, t: Tid, number: nat) {
    && t in s.threads && (s.threads[t].InRead? || s.threads[t].AwaitRead? || s.threads[t].Holding?)
    && s.threads[t].block in s.blocks && s.blocks[s.threads[t].block].number == number
  }

  lemma FreshId(s: State, debtors: set<Tid>)
    requires InOrder(s, debtors)
    ensures s.next !in s.blocks
  {
    assert s.next !in Credited(s, debtors).blocks;
  }

  lemma LookupReads(s: State, debtors: set<Tid>, t: Tid, number: nat, garbage: Data)
    requires InOrder(s, debtors) && Enabled(s, Lookup(t, number, garbage))
    ensures Reader(Step(s, Lookup(t, number, garbage)), t, number)
  {
    assert TableInv(Credited(s, debtors));
  }

  lemma {:induction false} ReaderHolds(run: Trace, t: Tid, number: nat)
    requires IsRun(run) && AlwaysInOrder(run) && Looked(run, t, number)
    ensures Reader(run.state, t, number)
  {
    var s, debtors := run.before.state, run.before.debtors;
    if Mover(run.move) == t && run.move.op.Lookup? {
      LookupReads(s, debtors, t, number, run.move.op.garbage);
    } else {
      ReaderHolds(run.before, t, number);
      FreshId(s, debtors);
      if Mover(run.move) != t {
        StartLeavesOthers(s, debtors, run.move, t);
        UsedIsThere(run.state, run.debtors, t);
      }
      NumbersStay(s, debtors, run.move, s.threads[t].block);
    }
  }

  /**
   A thread that holds a block after asking for a device block holds that one; while the block is OK its
   bytes are the device's.
   */
  lemma ReaderSeesDevice(run: Trace, t: Tid, number: nat)
    requires IsRun(run) && InOrder(First(run).state, First(run).debtors) && AlwaysHarmless(run)
    requires Looked(run, t, number) && t in run.state.threads && run.state.threads[t].Holding?
    ensures
      var s := run.state;
      var b := s.threads[t].block;
      && b in s.blocks && s.blocks[b].number == number < |s.device|
      && (s.blocks[b].state == Ok ==> s.blocks[b].data == s.device[number])
  {
    RunInOrderIff(run);
    ReaderHolds(run, t, number);
    assert BlockInv(Credited(run.state, run.debtors), run.state.threads[t].block);
  }

  // ---------------------------------------------------------------- an example

  function Only(x: Block, device: Data, a: Activity): State {
    State(2, [device], map[0 := 0], map[0 := x], map[0 := a], 1, [])
  }

  /** Reading block 0 of a device that holds 5 and 6 there. */
  lemma FiveSix() returns (run: Trace)
    ensures IsRun(run) && NoOverwrites(run) && Inv(First(run).state) && First(run).state.device == [[5, 6]]
    ensures run.state == Only(Block(0, Ok, 1, [5, 6], []), [5, 6], Holding(0))
  {
    var boot := State(2, [[5, 6]], map[], map[], map[0 := Idle], 0, []);
    BootHolds(2, [[5, 6]], boot.threads);
    run := Extended(Begin(boot, {}), Plain(Lookup(0, 0, [0, 0])));
    assert run.state == Only(Block(0, Reading, 1, [0, 0], []), [5, 6], InRead(0));
    run := Extended(run, Plain(ReadDone(0, true)));
  }

  lemma NineStarts()
    ensures
      var s := Only(Block(0, Ok, 1, [5, 6], []), [5, 6], Holding(0));
      && Enabled(s, BeginWrite(0, 1, [9]))
      && Step(s, BeginWrite(0, 1, [9])) == Only(Block(0, Writing, 1, [5, 9], []), [5, 6], InWrite(0, 1, 1))
  {
    assert Splice([5, 6], 1, [9]) == [5, 9];
  }

  lemma NineLands()
    ensures
      var s := Only(Block(0, Writing, 1, [5, 9], []), [5, 6], InWrite(0, 1, 1));
      Enabled(s, WriteDone(0, true)) && Step(s, WriteDone(0, true)).device == [[5, 9]]
  {
    assert Splice([5, 6], 1, [5, 9][1..2]) == [5, 9];
  }

  /** Writing 9 at place 1 of a block that holds 5 and 6 leaves 5 and 9 on the device. */
  lemma PartialWriteExample() returns (run: Trace)
    ensures IsRun(run) && NoOverwrites(run) && Inv(First(run).state) && First(run).state.device == [[5, 6]]
    ensures run.Then? && run.move == Plain(WriteDone(0, true)) && run.state.device == [[5, 9]]
  {
    run := FiveSix();
    NineStarts();
    run := Extended(run, Plain(BeginWrite(0, 1, [9])));
    NineLands();
    run := Extended(run, Plain(WriteDone(0, true)));
  }
}
