/**
 What a thread gets for what it asked: the kind of block, the wake-ups that end it, the end of a sleep.
 Each law is stated in the words of kernel/src/process/scheduler.c, kernel/src/process/waitqueue.c and
 kernel/src/timer.c and holds over any run of the steps of SchedulingRuns.
 */
module SchedulingOutcomes {
  import opened Common
  import opened Scheduling
  import opened SchedulingRuns

  // ---------------------------------------------------------------- one step

  /** A signal is pending, so that the call returns without blocking. */
  predicate AtOnce(op: Op) {
    match op
    case WaitOp(_, interruptible, pending) => interruptible && pending
    case BlockOp(interruptible, pending) => interruptible && pending
    case SleepOp(_, pending) => pending
    case _ => false
  }

  predicate Blocks(op: Op) {
    (op.WaitOp? || op.BlockOp? || op.SleepOp?) && !AtOnce(op)
  }

  /** The call asked for a block that signals may end; TimerSleep always does. */
  predicate Soft(op: Op) {
    match op
    case WaitOp(_, interruptible, _) => interruptible
    case BlockOp(interruptible, _) => interruptible
    case SleepOp(_, _) => true
    case _ => false
  }

  /** The thread is suspended in the call that it made. */
  predicate Within(op: Op, at: Place) {
    match op
    case WaitOp(q, _, _) => at.InWait? && at.queue == q
    case BlockOp(_, _) => at.InBlock?
    case SleepOp(_, _) => at.InSleep?
    case _ => false
  }

  /** A thread that blocks is in the interruptible state exactly if it asked for that, and in the call that it made. */
  lemma BlockedAsAsked(s: State, op: Op)
    requires Shaped(s) && Enabled(s, op) && Blocks(op)
    ensures s.current in Step(s, op).threads
    ensures
      var th := Step(s, op).threads[s.current];
      && (Soft(op) ==> th.state == Intr) && (!Soft(op) ==> th.state == Unintr)
      && !th.interrupted && Within(op, th.at)
  {
  }

  /** Waiting puts the thread at the end of the queue it named, and of no other. */
  lemma WaiterIsLast(s: State, op: Op, q: Qid)
    requires Shaped(s) && Enabled(s, op) && op.WaitOp? && q in s.queues
    ensures q in Step(s, op).queues
    ensures Step(s, op).queues[q] == if q == op.q && Blocks(op) then s.queues[q] + [s.current] else s.queues[q]
  {
  }

  /** A call that returns at once leaves no one blocked and no one queued. */
  lemma AtOnceChangesNothing(s: State, op: Op)
    requires Shaped(s) && Enabled(s, op) && AtOnce(op)
    ensures
      var next := Step(s, op);
      && next.threads == s.threads && next.current == s.current && next.runQueue == s.runQueue
      && next.queues == s.queues && next.sleepers == s.sleepers
  {
  }

  /** A signal makes a blocked thread runnable if and only if its block is interruptible. */
  lemma SignalWakesIff(s: State, t: Tid)
    requires t in s.threads && (s.threads[t].state == Intr || s.threads[t].state == Unintr)
    ensures
      var next := WakeUpSig(s, t, true);
      && t in next.threads && (next.threads[t].state == Running <==> s.threads[t].state == Intr)
      && (s.threads[t].state == Unintr ==> next == s)
      && (s.threads[t].state == Intr ==>
           next.threads[t] == Thread(Running, true, s.threads[t].at) && next.runQueue == s.runQueue + [t])
  {
  }

  /** Any other wake-up makes it runnable, at the end of the queue and not interrupted; so also for a new thread. */
  lemma WakeUpWakes(s: State, t: Tid)
    requires t in s.threads && s.threads[t].state != Zombie
    ensures
      var next := WakeUpSig(s, t, false);
      && t in next.threads && next.threads[t] == Thread(Running, false, s.threads[t].at)
      && next.runQueue == if s.threads[t].state == Running then s.runQueue else s.runQueue + [t]
  {
  }

  /** A wake-up concerns no other thread. */
  lemma WakeUpLeavesOthers(s: State, t: Tid, isSignal: bool, u: Tid)
    requires t in s.threads && u in s.threads && u != t
    ensures u in WakeUpSig(s, t, isSignal).threads && WakeUpSig(s, t, isSignal).threads[u] == s.threads[u]
  {
  }

  /** A thread that yields to others goes to the end of the queue with its mark cleared. */
  lemma YieldRequeues(s: State)
    requires Shaped(s)
    ensures
      var next := Yield(s);
      && s.current in next.threads && next.threads[s.current] == s.threads[s.current].(interrupted := false)
      && (s.runQueue != [] ==> next.current == s.runQueue[0] && next.runQueue == s.runQueue[1..] + [s.current])
      && (s.runQueue == [] ==> next.current == s.current && next.runQueue == [])
  {
  }

  /** A thread that exits is a zombie, is never run again, and goes to the reaper exactly if no one will wait for it. */
  lemma ExitLeavesZombie(s: State, autoReap: bool)
    requires Inv(s) && Enabled(s, ExitOp(autoReap))
    ensures s.reaper in s.threads
    ensures
      var next := Exit(s, autoReap);
      && s.current in next.threads && next.threads[s.current].state == Zombie && s.current !in next.runQueue
      && (s.current in next.reaperList <==> autoReap)
      && (autoReap ==> s.reaper in next.threads && next.threads[s.reaper].state == Running)
  {
    assert s.threads[s.current].state == Running;
  }

  /** A new thread has not started and is on no queue. */
  lemma SpawnedIsNew(s: State, t: Tid)
    requires Inv(s) && Shaped(s) && Enabled(s, Spawn(t))
    ensures
      var next := Step(s, Spawn(t));
      && t in next.threads && next.threads[t] == Thread(Startup, false, Nowhere)
      && t !in next.runQueue && t !in next.reaperList && next.current == s.current
  {
  }

  lemma {:induction false} DrainKeepsTime(s: State)
    requires SleepersExist(s)
    ensures Drain(s).time == s.time
    decreases |s.sleepers|
  {
    if !(s.sleepers == [] || s.time < s.sleepers[0].endTime) {
      DrainKeepsTime(ConsumeHead(s));
    }
  }

  /** The timer interrupt advances the clock by its ticks, and setting the time sets it. */
  lemma ClockMoves(s: State, op: Op)
    requires Shaped(s) && Enabled(s, op) && (op.Tick? || op.SetTime?)
    ensures Step(s, op).time == if op.Tick? then s.time + op.ticks else op.time
  {
    if op.Tick? {
      DrainKeepsTime(s.(time := s.time + op.ticks));
    }
  }

  // ---------------------------------------------------------------- a blocked thread over a run

  /** The step is one of the thread's own. */
  ghost predicate Own(s: State, op: Op, t: Tid) {
    s.current == t && (Yielding(op) || op.FinishOp?)
  }

  /** The thread's last step was the call, which blocked. */
  ghost predicate Called(run: Trace, t: Tid, call: Op) {
    run.Then? &&
    if Own(run.before.state, run.op, t) then run.op == call && Blocks(call) else Called(run.before, t, call)
  }

  /** It is still blocked as it asked to be, or has been made runnable, by a signal only if it allowed that. */
  ghost predicate AsAsked(s: State, t: Tid, call: Op) {
    && t in s.threads && Within(call, s.threads[t].at)
    && match s.threads[t].state
       case Intr => Soft(call)
       case Unintr => !Soft(call)
       case Running => s.threads[t].interrupted ==> Soft(call)
       case _ => false
  }

  lemma WakeUpAsAsked(s: State, u: Tid, isSignal: bool, t: Tid, call: Op)
    requires u in s.threads && AsAsked(s, t, call)
    ensures AsAsked(WakeUpSig(s, u, isSignal), t, call)
  {
  }

  lemma WakeOneAsAsked(s: State, q: Qid, t: Tid, call: Op)
    requires WaitersExist(s, q) && AsAsked(s, t, call)
    ensures AsAsked(WakeOne(s, q), t, call)
  {
    if q in s.queues && s.queues[q] != [] {
      var u := s.queues[q][0];
      WakeUpAsAsked(s.(queues := s.queues[q := s.queues[q][1..]], woken := s.woken + {u}), u, false, t, call);
    }
  }

  lemma {:induction false} WakeAllAsAsked(s: State, q: Qid, t: Tid, call: Op)
    requires WaitersExist(s, q) && AsAsked(s, t, call)
    ensures AsAsked(WakeAll(s, q), t, call)
    decreases if q in s.queues then |s.queues[q]| else 0
  {
    if q in s.queues && s.queues[q] != [] {
      WakeOneAsAsked(s, q, t, call);
      WakeAllAsAsked(WakeOne(s, q), q, t, call);
    }
  }

  lemma {:induction false} DrainAsAsked(s: State, t: Tid, call: Op)
    requires SleepersExist(s) && AsAsked(s, t, call)
    ensures AsAsked(Drain(s), t, call)
    decreases |s.sleepers|
  {
    if !(s.sleepers == [] || s.time < s.sleepers[0].endTime) {
      WakeUpAsAsked(s, s.sleepers[0].thread, false, t, call);
      DrainAsAsked(ConsumeHead(s), t, call);
    }
  }

  lemma OthersYield(s: State, op: Op, t: Tid, call: Op)
    requires Shaped(s) && Enabled(s, op) && Yielding(op)
    requires AsAsked(s, t, call) && s.current != t && t !in s.reaperList
    ensures AsAsked(YieldStep(s, op), t, call)
  {
    if op.ReaperLoop? {
      ReapAllEffect(s);
    } else if op.ExitOp? {
      ExitAsAsked(s, op.autoReap, t, call);
    }
  }

  lemma ExitAsAsked(s: State, autoReap: bool, t: Tid, call: Op)
    requires s.current in s.threads && s.reaper in s.threads && AsAsked(s, t, call) && s.current != t
    ensures AsAsked(Exit(s, autoReap), t, call)
  {
    if autoReap {
      var dead := WithThread(s, s.current, Thread(Zombie, false, Nowhere)).(reaperList := s.reaperList + [s.current]);
      WakeUpAsAsked(dead, s.reaper, false, t, call);
    }
  }

  lemma StepAsAsked(s: State, op: Op, t: Tid, call: Op)
    requires Shaped(s) && Enabled(s, op) && AsAsked(s, t, call) && !Own(s, op, t) && t !in s.reaperList
    ensures AsAsked(Step(s, op), t, call)
  {
    if Yielding(op) {
      OthersYield(s, op, t, call);
    } else {
      OthersStay(s, op, t, call);
    }
  }

  lemma OthersStay(s: State, op: Op, t: Tid, call: Op)
    requires Shaped(s) && Enabled(s, op) && !Yielding(op) && AsAsked(s, t, call) && !Own(s, op, t)
    ensures AsAsked(StayStep(s, op), t, call)
  {
    match op
    case Start(u) => WakeUpAsAsked(s, u, false, t, call);
    case Signal(u) => WakeUpAsAsked(s, u, true, t, call);
    case WakeOneOp(q) => WakeOneAsAsked(s, q, t, call);
    case WakeAllOp(q) => WakeAllAsAsked(s, q, t, call);
    case Tick(ticks) => DrainAsAsked(s.(time := s.time + ticks), t, call);
    case Spawn(_) =>
    case SetTime(_) =>
    case FinishOp =>
    case ReapZombie(_) =>
  }

  lemma NotToReap(s: State, t: Tid, call: Op)
    requires Inv(s) && AsAsked(s, t, call)
    ensures t !in s.reaperList
  {
  }

  lemma {:induction false} StaysAsAsked(run: Trace, t: Tid, call: Op)
    requires IsTrace(run) && Inv(First(run)) && Called(run, t, call)
    ensures AsAsked(run.state, t, call)
  {
    RunKeepsInv(run.before);
    if Own(run.before.state, run.op, t) {
      BlockedAsAsked(run.before.state, run.op);
    } else {
      StaysAsAsked(run.before, t, call);
      NotToReap(run.before.state, t, call);
      StepAsAsked(run.before.state, run.op, t, call);
    }
  }

  /** However long it is blocked, a signal wakes a thread if and only if it asked for an interruptible block. */
  lemma SignalWakesAsAsked(run: Trace, t: Tid, call: Op)
    requires IsTrace(run) && Inv(First(run)) && Called(run, t, call)
    ensures t in run.state.threads
    ensures run.state.threads[t].state != Running ==>
      (WakeUpSig(run.state, t, true).threads[t].state == Running <==> Soft(call))
  {
    StaysAsAsked(run, t, call);
  }

  /** A thread that waits uninterruptibly runs on only once a wake has taken it off the queue, and is told so. */
  lemma UninterruptibleWaitNeedsWake(run: Trace, t: Tid, call: Op)
    requires IsTrace(run) && Inv(First(run)) && Called(run, t, call)
    requires call.WaitOp? && !call.interruptible && run.state.current == t
    ensures t in run.state.threads && t in run.state.woken && !Returned(run.state)
    ensures call.q in run.state.queues && t !in run.state.queues[call.q]
  {
    StaysAsAsked(run, t, call);
    RunKeepsInv(run);
    assert PlaceInv(run.state, t);
    WaitReturnsFalseIffWoken(run.state);
  }

  // ---------------------------------------------------------------- a sleep over a run

  lemma {:induction false} InsertedMembers(sleepers: seq<Entry>, e: Entry, x: Entry)
    ensures x in InsertEntry(sleepers, e) <==> x in sleepers || x == e
  {
    if sleepers != [] && e.endTime <= sleepers[0].endTime {
      InsertedMembers(sleepers[1..], e, x);
      assert sleepers == [sleepers[0]] + sleepers[1..];
    }
  }

  lemma {:induction false} RemainingMembers(sleepers: seq<Entry>, id: nat, x: Entry)
    ensures x in WithoutEntry(sleepers, id) ==> x in sleepers
    ensures x in sleepers && x.id != id ==> x in WithoutEntry(sleepers, id)
  {
    if sleepers != [] {
      assert sleepers == [sleepers[0]] + sleepers[1..];
      RemainingMembers(sleepers[1..], id, x);
    }
  }

  /** The entry of a sleep ends when the call was made plus the time it asked for. */
  lemma SleepEndsAsAsked(s: State, op: Op)
    requires Shaped(s) && Enabled(s, op) && op.SleepOp? && !op.pending
    ensures Entry(s.nextEntry, s.current, s.time + op.duration) in Step(s, op).sleepers
  {
    var e := Entry(s.nextEntry, s.current, s.time + op.duration);
    InsertedMembers(s.sleepers, e, e);
  }

  lemma {:induction false} WakeAllKeepsSleepers(s: State, q: Qid)
    requires WaitersExist(s, q)
    ensures WakeAll(s, q).sleepers == s.sleepers
    decreases if q in s.queues then |s.queues[q]| else 0
  {
    if q in s.queues && s.queues[q] != [] {
      WakeAllKeepsSleepers(WakeOne(s, q), q);
    }
  }

  lemma {:induction false} ReapAllKeepsSleepers(s: State)
    ensures ReapAll(s).sleepers == s.sleepers
    decreases |s.reaperList|
  {
    if s.reaperList != [] {
      ReapAllKeepsSleepers(Reap(s.(reaperList := s.reaperList[1..]), s.reaperList[0]));
    }
  }

  /** The steps that touch the sleep queue are those of the sleepers and the timer. */
  lemma SleepersKept(s: State, op: Op)
    requires Shaped(s) && Enabled(s, op) && !op.SleepOp? && !op.FinishOp? && !op.Tick?
    ensures Step(s, op).sleepers == s.sleepers
  {
    match op
    case WakeAllOp(q) => WakeAllKeepsSleepers(s, q);
    case ReaperLoop => ReapAllKeepsSleepers(s);
    case _ =>
  }

  lemma TickDrainsTheDue(s: State, ticks: nat, e: Entry)
    requires Inv(s) && Shaped(s) && e in s.sleepers
    ensures SleepersExist(s.(time := s.time + ticks))
    ensures e in Drain(s.(time := s.time + ticks)).sleepers || e.endTime <= s.time + ticks
  {
    ClockKeepsInv(s, s.time + ticks);
    DrainIsAllOrNothing(s.(time := s.time + ticks));
  }

  lemma {:induction false} DrainAddsNone(s: State, e: Entry)
    requires SleepersExist(s)
    ensures e in Drain(s).sleepers ==> e in s.sleepers
    decreases |s.sleepers|
  {
    if !(s.sleepers == [] || s.time < s.sleepers[0].endTime) {
      DrainAddsNone(ConsumeHead(s), e);
    }
  }

  lemma FinishedEntry(s: State, e: Entry)
    requires SleepInv(s) && s.current in s.threads
    ensures e in Finish(s).sleepers ==> e in s.sleepers
    ensures e in s.sleepers && e !in Finish(s).sleepers ==> s.current == e.thread && Returned(s)
  {
    if s.threads[s.current].at.InSleep? {
      RemainingMembers(s.sleepers, s.threads[s.current].at.entry, e);
    }
    if e in s.sleepers {
      var i :| 0 <= i < |s.sleepers| && s.sleepers[i] == e;
      assert s.threads[e.thread].at == InSleep(e.id);
    }
  }

  lemma SleptEntry(s: State, op: Op, e: Entry)
    requires Shaped(s) && Enabled(s, op) && op.SleepOp?
    ensures e in s.sleepers ==> e in Step(s, op).sleepers
    ensures e in Step(s, op).sleepers ==>
      e in s.sleepers || (!op.pending && e == Entry(s.nextEntry, s.current, s.time + op.duration))
  {
    InsertedMembers(s.sleepers, Entry(s.nextEntry, s.current, s.time + op.duration), e);
  }

  /** An entry leaves the queue when the clock has reached its end, or when its own thread was interrupted. */
  lemma EntryLeavesOnly(s: State, op: Op, e: Entry)
    requires Inv(s) && Shaped(s) && Enabled(s, op) && e in s.sleepers && e !in Step(s, op).sleepers
    ensures
      || (op.Tick? && e.endTime <= s.time + op.ticks)
      || (op.FinishOp? && s.current == e.thread && Returned(s))
  {
    if op.SleepOp? {
      SleptEntry(s, op, e);
    } else if op.Tick? {
      TickDrainsTheDue(s, op.ticks, e);
    } else if op.FinishOp? {
      FinishedEntry(s, e);
    } else {
      SleepersKept(s, op);
    }
  }

  lemma EntryComesOnly(s: State, op: Op, e: Entry)
    requires SleepInv(s) && Shaped(s) && Enabled(s, op) && e in Step(s, op).sleepers
    ensures
      || e in s.sleepers
      || (op.SleepOp? && !op.pending && e == Entry(s.nextEntry, s.current, s.time + op.duration))
  {
    if op.SleepOp? {
      SleptEntry(s, op, e);
    } else if op.Tick? {
      DrainAddsNone(s.(time := s.time + op.ticks), e);
    } else if op.FinishOp? {
      FinishedEntry(s, e);
    } else {
      SleepersKept(s, op);
    }
  }

  /** Entry `id` was made by thread `t` for a sleep that was to last until `end`. */
  ghost predicate SleepsUntil(run: Trace, id: nat, t: Tid, end: nat) {
    run.Then? &&
    var s := run.before.state;
    if run.op.SleepOp? && !run.op.pending && s.nextEntry == id then t == s.current && end == s.time + run.op.duration
    else SleepsUntil(run.before, id, t, end)
  }

  lemma {:induction false} EntryAsAsked(run: Trace, id: nat, t: Tid, end: nat, e: Entry)
    requires IsTrace(run) && Inv(First(run)) && SleepsUntil(run, id, t, end) && e in run.state.sleepers && e.id == id
    ensures e == Entry(id, t, end)
  {
    var s := run.before.state;
    RunKeepsInv(run.before);
    EntryComesOnly(s, run.op, e);
    if run.op.SleepOp? && !run.op.pending && s.nextEntry == id {
      NewEntryIsFresh(s);
    } else {
      EntryAsAsked(run.before, id, t, end, e);
    }
  }

  /** The clock cuts no sleep short: an entry goes once the clock has reached the end asked for, or by a signal. */
  lemma NoSleepEndsEarly(run: Trace, id: nat, t: Tid, end: nat, op: Op, next: State, e: Entry)
    requires IsTrace(Then(run, op, next)) && Inv(First(run)) && SleepsUntil(run, id, t, end)
    requires e in run.state.sleepers && e.id == id && e !in next.sleepers
    ensures (op.Tick? && end <= next.time) || (op.FinishOp? && run.state.current == t && Returned(run.state))
  {
    EntryAsAsked(run, id, t, end, e);
    RunKeepsInv(run);
    EntryLeavesOnly(run.state, op, e);
    if op.Tick? {
      ClockMoves(run.state, op);
    }
  }
}
