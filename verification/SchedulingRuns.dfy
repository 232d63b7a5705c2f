/** What every run of the scheduler, the wait queues, the timer and the reaper keeps. */
module SchedulingRuns {
  import opened Common
  import opened Scheduling

  // ---------------------------------------------------------------- the invariant

  /** Just before a schedule: exactly the running threads are queued, each once. */
  ghost predicate Ready(s: State) {
    && NoDuplicates(s.runQueue)
    && s.idle in s.threads && s.threads[s.idle].state == Startup
    && (forall t :: t in s.runQueue ==> t in s.threads)
    && (forall t :: t in s.threads ==> (s.threads[t].state == Running <==> t in s.runQueue))
  }

  /** Between schedules: the running threads are the current one and, each once, those queued. */
  ghost predicate RunInv(s: State) {
    && NoDuplicates(s.runQueue)
    && s.idle in s.threads && s.threads[s.idle].state == Startup
    && s.current in s.threads && s.current !in s.runQueue
    && (forall t :: t in s.runQueue ==> t in s.threads)
    && (forall t :: t in s.threads ==>
          (s.threads[t].state == Running <==> t in s.runQueue || (t == s.current && t != s.idle)))
  }

  ghost predicate Slept(sleepers: seq<Entry>, id: nat) {
    exists i :: 0 <= i < |sleepers| && sleepers[i].id == id
  }

  /** The thread is still on the list it blocked on. */
  ghost predicate On(s: State, t: Tid)
    requires t in s.threads
  {
    match s.threads[t].at
    case InWait(q, _) => q in s.queues && t in s.queues[q]
    case InSleep(id) => Slept(s.sleepers, id)
    case _ => false
  }

  /**
   The rule of schedInterrupted: a blocked thread is on its list; a thread made runnable again is still
   on its list exactly when it was a signal that did it and no real wake-up has come since.
   */
  ghost predicate Consistent(th: Thread, on: bool) {
    match th.state
    case Running => th.interrupted <==> on
    case Intr => on && !th.interrupted
    case Unintr => on && !th.interrupted
    case _ => false
  }

  ghost predicate PlaceInv(s: State, t: Tid)
    requires t in s.threads
  {
    var th := s.threads[t];
    match th.at
    case Nowhere => th.state != Intr && th.state != Unintr
    case InBlock => th.state != Startup && th.state != Zombie
    case InWait(q, ticket) =>
      && Consistent(th, On(s, t))
      && q in s.queues && ticket < s.tickets
      && (t in s.woken <==> !On(s, t))
    case InSleep(id) =>
      && Consistent(th, On(s, t))
      && id < s.nextEntry
      && (id in s.freed <==> !On(s, t))
  }

  /** A queue holds threads waiting on it, in the order they began to wait. */
  ghost predicate QueueInv(s: State, q: Qid)
    requires q in s.queues
  {
    && (forall i :: 0 <= i < |s.queues[q]| ==>
          && s.queues[q][i] in s.threads
          && s.threads[s.queues[q][i]].at.InWait?
          && s.threads[s.queues[q][i]].at.queue == q)
    && (forall i, j :: 0 <= i < j < |s.queues[q]| ==>
          && s.queues[q][i] != s.queues[q][j]
          && s.threads[s.queues[q][i]].at.ticket < s.threads[s.queues[q][j]].at.ticket)
  }

  ghost predicate Latest(sleepers: seq<Entry>) {
    forall i, j :: 0 <= i < j < |sleepers| ==> sleepers[i].endTime >= sleepers[j].endTime
  }

  ghost predicate DistinctIds(sleepers: seq<Entry>) {
    forall i, j :: 0 <= i < j < |sleepers| ==> sleepers[i].id != sleepers[j].id
  }

  /** No two threads sleep on one entry. */
  ghost predicate DistinctSleeps(threads: map<Tid, Thread>) {
    forall t, u :: t in threads && u in threads && threads[t].at.InSleep? && threads[t].at == threads[u].at ==> t == u
  }

  /** The sleep queue is kept latest first; every entry ever made is queued or freed, never both. */
  ghost predicate SleepInv(s: State) {
    && Latest(s.sleepers)
    && DistinctIds(s.sleepers)
    && (forall i :: 0 <= i < |s.sleepers| ==>
          && s.sleepers[i].thread in s.threads
          && s.threads[s.sleepers[i].thread].at == InSleep(s.sleepers[i].id))
    && DistinctSleeps(s.threads)
    && NoDuplicates(s.freed)
    && (forall id :: id in s.freed ==> id < s.nextEntry)
    && (forall id: nat :: id < s.nextEntry ==> (id in s.freed <==> !Slept(s.sleepers, id)))
  }

  /** A non-empty reaper list means the reaper is runnable; it holds each zombie once. */
  ghost predicate ReaperInv(s: State) {
    && s.reaper in s.threads && s.reaper != s.idle
    && s.threads[s.reaper].state != Zombie
    && (s.threads[s.reaper].at == Nowhere || s.threads[s.reaper].at == InBlock)
    && NoDuplicates(s.reaperList)
    && (forall t :: t in s.reaperList ==> t in s.threads && s.threads[t].state == Zombie)
    && (s.reaperList != [] ==> s.threads[s.reaper].state == Running)
    && NoDuplicates(s.reaped)
    && (forall t :: t in s.reaped ==> t !in s.threads)
  }

  ghost predicate ListsInv(s: State) {
    && (forall t :: t in s.threads ==> PlaceInv(s, t))
    && (forall q :: q in s.queues ==> QueueInv(s, q))
    && SleepInv(s)
  }

  ghost predicate Inv(s: State) {
    RunInv(s) && ListsInv(s) && ReaperInv(s)
  }

  // ---------------------------------------------------------------- the steps

  datatype Op =
    | Spawn(t: Tid)
    | Start(t: Tid)
    | YieldOp
    | WaitOp(q: Qid, interruptible: bool, pending: bool)
    | BlockOp(interruptible: bool, pending: bool)
    | SleepOp(duration: nat, pending: bool)
    | FinishOp
    | WakeOneOp(q: Qid)
    | WakeAllOp(q: Qid)
    | Signal(t: Tid)
    | Tick(ticks: nat)
    | SetTime(time: nat)
    | IdleLoop
    | ExitOp(autoReap: bool)
    | ReapZombie(t: Tid)
    | ReaperLoop

  /** An ordinary thread is running its own code. */
  ghost predicate Acting(s: State) {
    && s.current in s.threads && s.current != s.idle && s.current != s.reaper
    && s.threads[s.current].at == Nowhere
  }

  ghost predicate Enabled(s: State, op: Op) {
    match op
    case Spawn(t) => t !in s.threads && t !in s.reaped
    case Start(t) => t in s.threads && t != s.idle && (s.threads[t].state == Startup || s.threads[t].at == InBlock)
    case YieldOp => Acting(s)
    case WaitOp(q, _, _) => Acting(s) && q in s.queues
    case BlockOp(_, _) => Acting(s)
    case SleepOp(_, _) => Acting(s)
    case FinishOp => s.current in s.threads && s.threads[s.current].at != Nowhere
    case WakeOneOp(q) => true
    case WakeAllOp(q) => true
    case Signal(t) => t in s.threads && s.threads[t].state == Intr
    case Tick(_) => true
    case SetTime(_) => true
    case IdleLoop => s.current == s.idle
    case ExitOp(_) => Acting(s)
    case ReapZombie(t) =>
      Acting(s) && t in s.threads && s.threads[t].state == Zombie && t !in s.reaperList
    case ReaperLoop => s.current == s.reaper && s.reaper in s.threads && s.threads[s.reaper].at == Nowhere
  }

  /** The threads the lists name exist. */
  ghost predicate Shaped(s: State) {
    && s.current in s.threads && s.reaper in s.threads
    && SleepersExist(s)
    && forall q :: q in s.queues ==> WaitersExist(s, q)
  }

  lemma InvIsShaped(s: State)
    requires Inv(s)
    ensures Shaped(s)
  {
    forall q | q in s.queues
      ensures WaitersExist(s, q)
    {
      assert QueueInv(s, q);
    }
  }

  /** The steps by which the current thread gives up the processor. */
  predicate Yielding(op: Op) {
    op.YieldOp? || op.WaitOp? || op.BlockOp? || op.SleepOp? || op.ExitOp? || op.IdleLoop? || op.ReaperLoop?
  }

  /** The steps that wake threads. */
  predicate Waking(op: Op) {
    op.Start? || op.Signal? || op.WakeOneOp? || op.WakeAllOp? || op.Tick?
  }

  ghost function YieldStep(s: State, op: Op): State
    requires Shaped(s) && Enabled(s, op) && Yielding(op)
  {
    match op
    case YieldOp => Yield(s)
    case WaitOp(q, interruptible, pending) => Wait(s, q, interruptible, pending)
    case BlockOp(interruptible, pending) => if interruptible && pending then s else BlockAt(s, interruptible, InBlock)
    case SleepOp(duration, pending) => Sleep(s, duration, pending)
    case IdleLoop => DoSchedule(s)
    case ExitOp(autoReap) => Exit(s, autoReap)
    case ReaperLoop => BlockAt(ReapAll(s), false, InBlock)
  }

  ghost function StayStep(s: State, op: Op): State
    requires Shaped(s) && Enabled(s, op) && !Yielding(op)
  {
    match op
    case Spawn(t) => WithThread(s, t, Thread(Startup, false, Nowhere))
    case Start(t) => WakeUpSig(s, t, false)
    case FinishOp => Finish(s)
    case WakeOneOp(q) => WakeOne(s, q)
    case WakeAllOp(q) => WakeAll(s, q)
    case Signal(t) => WakeUpSig(s, t, true)
    case Tick(ticks) => Drain(s.(time := s.time + ticks))
    case SetTime(time) => s.(time := time)
    case ReapZombie(t) => Reap(s, t)
  }

  ghost function Step(s: State, op: Op): State
    requires Shaped(s) && Enabled(s, op)
  {
    if Yielding(op) then YieldStep(s, op) else StayStep(s, op)
  }

  // ---------------------------------------------------------------- the run queue

  lemma DoScheduleRuns(s: State)
    requires Ready(s)
    ensures RunInv(DoSchedule(s))
  {
  }

  lemma WakeUpKeepsRun(s: State, t: Tid, isSignal: bool)
    requires RunInv(s) && t in s.threads && t != s.idle
    ensures RunInv(WakeUpSig(s, t, isSignal))
  {
  }

  lemma WakeUpKeepsReady(s: State, t: Tid, isSignal: bool)
    requires Ready(s) && t in s.threads && t != s.idle
    ensures Ready(WakeUpSig(s, t, isSignal))
  {
  }

  /** The current thread stops running: what is left to run is queued. */
  lemma CurrentStops(s: State, th: Thread)
    requires RunInv(s) && s.current != s.idle && th.state != Running
    ensures Ready(WithThread(s, s.current, th))
  {
  }

  lemma YieldKeepsRun(s: State)
    requires RunInv(s) && s.current != s.idle
    ensures RunInv(Yield(s))
  {
    var cleared := WithThread(s, s.current, s.threads[s.current].(interrupted := false));
    if s.runQueue != [] {
      assert Ready(cleared.(runQueue := s.runQueue + [s.current]));
    }
  }

  // ---------------------------------------------------------------- the lists

  /** Nothing that concerns the lists differs. */
  lemma ListsUntouched(s: State, next: State)
    requires ListsInv(s)
    requires next.threads == s.threads && next.queues == s.queues && next.sleepers == s.sleepers
    requires next.woken == s.woken && next.tickets == s.tickets
    requires next.nextEntry == s.nextEntry && next.freed == s.freed
    ensures ListsInv(next)
  {
    forall t | t in next.threads
      ensures PlaceInv(next, t)
    {
      assert PlaceInv(s, t) && On(s, t) == On(next, t);
    }
    forall q | q in next.queues
      ensures QueueInv(next, q)
    {
      assert QueueInv(s, q);
    }
  }

  /** Thread `t` alone is in question; every other thread's place is as it should be. */
  ghost predicate OthersInPlace(s: State, t: Tid) {
    && (forall u :: u in s.threads && u != t ==> PlaceInv(s, u))
    && (forall q :: q in s.queues ==> QueueInv(s, q))
    && SleepInv(s)
  }

  /** A thread's record changes, but not where it is suspended. */
  lemma RetagKeepsPlaces(s: State, t: Tid, th: Thread)
    requires OthersInPlace(s, t) && t in s.threads && th.at == s.threads[t].at
    ensures OthersInPlace(WithThread(s, t, th), t)
    ensures On(WithThread(s, t, th), t) == On(s, t)
  {
    var next := WithThread(s, t, th);
    forall u | u in next.threads && u != t
      ensures PlaceInv(next, u)
    {
      assert PlaceInv(s, u) && On(s, u) == On(next, u);
    }
    forall q | q in next.queues
      ensures QueueInv(next, q)
    {
      assert QueueInv(s, q);
    }
  }

  lemma RunQueueIrrelevant(s: State, t: Tid, runQueue: seq<Tid>)
    requires OthersInPlace(s, t)
    ensures OthersInPlace(s.(runQueue := runQueue), t)
    ensures t in s.threads ==> On(s.(runQueue := runQueue), t) == On(s, t)
  {
    var next := s.(runQueue := runQueue);
    forall u | u in next.threads && u != t
      ensures PlaceInv(next, u)
    {
      assert PlaceInv(s, u) && On(s, u) == On(next, u);
    }
    forall q | q in next.queues
      ensures QueueInv(next, q)
    {
      assert QueueInv(s, q);
    }
  }

  lemma WakeUpKeepsOthers(s: State, t: Tid, isSignal: bool)
    requires OthersInPlace(s, t) && t in s.threads
    ensures OthersInPlace(WakeUpSig(s, t, isSignal), t)
    ensures On(WakeUpSig(s, t, isSignal), t) == On(s, t)
    ensures WakeUpSig(s, t, isSignal).threads[t].at == s.threads[t].at
  {
    var next := WakeUpSig(s, t, isSignal);
    var tagged := WithThread(s, t, next.threads[t]);
    RetagKeepsPlaces(s, t, next.threads[t]);
    RunQueueIrrelevant(tagged, t, next.runQueue);
    assert next == tagged.(runQueue := next.runQueue) by {
      assert s.threads[t := s.threads[t]] == s.threads;
    }
  }

  /** A signal or a plain start moves a thread without touching its list. */
  lemma WakeUpKeepsLists(s: State, t: Tid, isSignal: bool)
    requires ListsInv(s) && t in s.threads
    requires if isSignal then s.threads[t].state == Intr
             else s.threads[t].at == InBlock || s.threads[t].at == Nowhere
    ensures ListsInv(WakeUpSig(s, t, isSignal))
  {
    assert PlaceInv(s, t);
    WakeUpKeepsOthers(s, t, isSignal);
    assert PlaceInv(WakeUpSig(s, t, isSignal), t);
  }

  /** The real wake-up of a thread that has just been taken off its list. */
  lemma WakeRemoved(m: State, t: Tid)
    requires OthersInPlace(m, t) && t in m.threads && !On(m, t)
    requires m.threads[t].state == Running || m.threads[t].state == Intr || m.threads[t].state == Unintr
    requires match m.threads[t].at
             case InWait(q, ticket) => q in m.queues && ticket < m.tickets && t in m.woken
             case InSleep(id) => id < m.nextEntry && id in m.freed
             case _ => false
    ensures ListsInv(WakeUpSig(m, t, false))
  {
    WakeUpKeepsOthers(m, t, false);
    assert PlaceInv(WakeUpSig(m, t, false), t);
  }

  lemma WakeOneRemoves(s: State, q: Qid)
    requires ListsInv(s) && q in s.queues && s.queues[q] != []
    ensures var t := s.queues[q][0];
            var m := s.(queues := s.queues[q := s.queues[q][1..]], woken := s.woken + {t});
            t in s.threads && OthersInPlace(m, t) && !On(m, t)
  {
    var t := s.queues[q][0];
    var m := s.(queues := s.queues[q := s.queues[q][1..]], woken := s.woken + {t});
    assert QueueInv(s, q);
    forall u | u in m.threads && u != t
      ensures PlaceInv(m, u)
    {
      assert PlaceInv(s, u) && On(s, u) == On(m, u);
    }
    forall p | p in m.queues
      ensures QueueInv(m, p)
    {
      assert QueueInv(s, p);
    }
  }

  lemma WakeOneKeepsInv(s: State, q: Qid)
    requires Inv(s)
    ensures Inv(WakeOne(s, q))
  {
    if q in s.queues && s.queues[q] != [] {
      var t := s.queues[q][0];
      var m := s.(queues := s.queues[q := s.queues[q][1..]], woken := s.woken + {t});
      assert QueueInv(s, q) && PlaceInv(s, t);
      WakeOneRemoves(s, q);
      WakeRemoved(m, t);
      WakeUpKeepsRun(m, t, false);
    }
  }

  lemma {:induction false} WakeAllKeepsInv(s: State, q: Qid)
    requires Inv(s) && WaitersExist(s, q)
    ensures Inv(WakeAll(s, q))
    decreases if q in s.queues then |s.queues[q]| else 0
  {
    if q in s.queues && s.queues[q] != [] {
      WakeOneKeepsInv(s, q);
      WakeAllKeepsInv(WakeOne(s, q), q);
    }
  }

  // ---------------------------------------------------------------- sleeping

  /** The place AddTimerToQueue finds: after every entry that ends no earlier, before the first that does. */
  lemma {:induction false} InsertEntryPlace(sleepers: seq<Entry>, e: Entry) returns (p: nat)
    ensures p <= |sleepers| && InsertEntry(sleepers, e) == sleepers[..p] + [e] + sleepers[p..]
    ensures forall i :: 0 <= i < p ==> sleepers[i].endTime >= e.endTime
    ensures p < |sleepers| ==> sleepers[p].endTime < e.endTime
  {
    if sleepers == [] || e.endTime > sleepers[0].endTime {
      p := 0;
    } else {
      var k := InsertEntryPlace(sleepers[1..], e);
      p := k + 1;
      assert sleepers == [sleepers[0]] + sleepers[1..];
      assert sleepers[..p] == [sleepers[0]] + sleepers[1..][..k] && sleepers[p..] == sleepers[1..][k..];
    }
  }

  lemma SpliceSlept(a: seq<Entry>, e: Entry, b: seq<Entry>)
    ensures forall id :: Slept(a + [e] + b, id) <==> Slept(a + b, id) || id == e.id
  {
    var all, less := a + [e] + b, a + b;
    forall id | Slept(all, id) && id != e.id
      ensures Slept(less, id)
    {
      var i :| 0 <= i < |all| && all[i].id == id;
      assert less[if i < |a| then i else i - 1].id == id;
    }
    forall id | Slept(less, id) || id == e.id
      ensures Slept(all, id)
    {
      if id == e.id {
        assert all[|a|].id == id;
      } else {
        var i :| 0 <= i < |less| && less[i].id == id;
        assert all[if i < |a| then i else i + 1].id == id;
      }
    }
  }

  lemma SpliceOrder(a: seq<Entry>, e: Entry, b: seq<Entry>)
    requires Latest(a + b) && DistinctIds(a + b) && !Slept(a + b, e.id)
    requires forall i :: 0 <= i < |a| ==> a[i].endTime >= e.endTime
    requires forall i :: 0 <= i < |b| ==> b[i].endTime <= e.endTime
    ensures Latest(a + [e] + b) && DistinctIds(a + [e] + b)
  {
    var all, less := a + [e] + b, a + b;
    forall i, j | 0 <= i < j < |all|
      ensures all[i].endTime >= all[j].endTime && all[i].id != all[j].id
    {
      var k, l := if i < |a| then i else i - 1, if j < |a| then j else j - 1;
      if i != |a| && j != |a| {
        assert less[k] == all[i] && less[l] == all[j] && k < l;
      } else if i == |a| {
        assert less[l] == all[j] && b[j - 1 - |a|] == all[j];
      } else {
        assert less[k] == all[i] && a[i] == all[i];
      }
    }
  }

  /** Inserting keeps the order, keeps every entry and adds the new one. */
  lemma InsertEntryEffect(sleepers: seq<Entry>, e: Entry)
    requires Latest(sleepers) && DistinctIds(sleepers) && !Slept(sleepers, e.id)
    ensures Latest(InsertEntry(sleepers, e)) && DistinctIds(InsertEntry(sleepers, e))
    ensures forall id :: Slept(InsertEntry(sleepers, e), id) <==> Slept(sleepers, id) || id == e.id
    ensures forall x :: x in InsertEntry(sleepers, e) <==> x in sleepers || x == e
  {
    var p := InsertEntryPlace(sleepers, e);
    var a, b := sleepers[..p], sleepers[p..];
    assert sleepers == a + b;
    SpliceSlept(a, e, b);
    SpliceOrder(a, e, b);
  }

  lemma {:induction false} WithoutEntryPlace(sleepers: seq<Entry>, id: nat) returns (p: nat)
    requires Slept(sleepers, id)
    ensures p < |sleepers| && sleepers[p].id == id && WithoutEntry(sleepers, id) == sleepers[..p] + sleepers[p + 1..]
  {
    if sleepers[0].id == id {
      p := 0;
    } else {
      var i :| 0 <= i < |sleepers| && sleepers[i].id == id;
      assert sleepers[1..][i - 1].id == id;
      var k := WithoutEntryPlace(sleepers[1..], id);
      p := k + 1;
      assert sleepers[..p] == [sleepers[0]] + sleepers[1..][..k] && sleepers[p + 1..] == sleepers[1..][k + 1..];
    }
  }

  lemma RemoveOrder(a: seq<Entry>, e: Entry, b: seq<Entry>)
    requires Latest(a + [e] + b) && DistinctIds(a + [e] + b)
    ensures Latest(a + b) && DistinctIds(a + b) && !Slept(a + b, e.id)
  {
    var all, less := a + [e] + b, a + b;
    forall i | 0 <= i < |less|
      ensures less[i].id != e.id
    {
      assert less[i] == all[if i < |a| then i else i + 1] && all[|a|] == e;
    }
    forall i, j | 0 <= i < j < |less|
      ensures less[i].endTime >= less[j].endTime && less[i].id != less[j].id
    {
      assert less[i] == all[if i < |a| then i else i + 1] && less[j] == all[if j < |a| then j else j + 1];
    }
  }

  /** Removing an entry removes just that one. */
  lemma WithoutEntryEffect(sleepers: seq<Entry>, id: nat)
    requires Latest(sleepers) && DistinctIds(sleepers) && Slept(sleepers, id)
    ensures Latest(WithoutEntry(sleepers, id)) && DistinctIds(WithoutEntry(sleepers, id))
    ensures forall k :: Slept(WithoutEntry(sleepers, id), k) <==> Slept(sleepers, k) && k != id
    ensures forall x :: x in WithoutEntry(sleepers, id) ==> x in sleepers
  {
    var p := WithoutEntryPlace(sleepers, id);
    var a, e, b := sleepers[..p], sleepers[p], sleepers[p + 1..];
    assert sleepers == a + [e] + b;
    SpliceSlept(a, e, b);
    RemoveOrder(a, e, b);
  }

  lemma ConsumeHeadRemoves(s: State)
    requires ListsInv(s) && s.sleepers != []
    ensures var e := s.sleepers[0];
            var m := s.(sleepers := s.sleepers[1..], freed := s.freed + [e.id]);
            && e.thread in s.threads && s.threads[e.thread].at == InSleep(e.id)
            && OthersInPlace(m, e.thread) && !On(m, e.thread)
  {
    var e := s.sleepers[0];
    var m := s.(sleepers := s.sleepers[1..], freed := s.freed + [e.id]);
    assert s.sleepers == [] + [e] + m.sleepers && m.sleepers == [] + m.sleepers;
    SpliceSlept([], e, m.sleepers);
    assert Slept(s.sleepers, e.id) && !Slept(m.sleepers, e.id);
    forall u | u in m.threads && u != e.thread
      ensures PlaceInv(m, u)
    {
      assert PlaceInv(s, u) && s.threads[u].at != InSleep(e.id);
      assert On(s, u) == On(m, u);
    }
    forall q | q in m.queues
      ensures QueueInv(m, q)
    {
      assert QueueInv(s, q);
    }
  }

  lemma ConsumeHeadKeepsInv(s: State)
    requires Inv(s) && s.sleepers != []
    ensures s.sleepers[0].thread in s.threads && Inv(ConsumeHead(s))
  {
    var e := s.sleepers[0];
    var m := s.(sleepers := s.sleepers[1..], freed := s.freed + [e.id]);
    ConsumeHeadRemoves(s);
    assert PlaceInv(s, e.thread);
    WakeRemoved(m, e.thread);
    WakeUpKeepsRun(m, e.thread, false);
    assert ConsumeHead(s) == WakeUpSig(m, e.thread, false);
  }

  lemma {:induction false} DrainKeepsInv(s: State)
    requires Inv(s)
    ensures Inv(Drain(s))
    decreases |s.sleepers|
  {
    if s.sleepers != [] && s.time >= s.sleepers[0].endTime {
      ConsumeHeadKeepsInv(s);
      DrainKeepsInv(ConsumeHead(s));
    }
  }

  function Ids(sleepers: seq<Entry>): seq<nat> {
    if sleepers == [] then [] else [sleepers[0].id] + Ids(sleepers[1..])
  }

  /**
   The queue is latest first, so the interrupt wakes every sleeper once the last of them is due and
   none before: a sleeper that is due waits for any that are not.
   */
  lemma {:induction false} DrainIsAllOrNothing(s: State)
    requires SleepersExist(s) && Latest(s.sleepers)
    ensures (forall i :: 0 <= i < |s.sleepers| ==> s.sleepers[i].endTime <= s.time) ==>
              Drain(s).sleepers == [] && Drain(s).freed == s.freed + Ids(s.sleepers)
    ensures (exists i :: 0 <= i < |s.sleepers| && s.sleepers[i].endTime > s.time) ==> Drain(s) == s
  {
    if forall i :: 0 <= i < |s.sleepers| ==> s.sleepers[i].endTime <= s.time {
      DrainAll(s);
    } else {
      var i :| 0 <= i < |s.sleepers| && s.sleepers[i].endTime > s.time;
      assert i > 0 ==> s.sleepers[0].endTime >= s.sleepers[i].endTime;
    }
  }

  /** At time 10 thread 2, due at 10, sleeps behind thread 3, due at 20. */
  function TwoSleepers(): State {
    var created := Thread(Startup, false, Nowhere);
    State(map[0 := created, 1 := created, 2 := Blocked(true, InSleep(0)), 3 := Blocked(true, InSleep(1))],
          [], 0, 0, 1, map[], [Entry(1, 3, 20), Entry(0, 2, 10)], 10, [], {}, 0, 2, [], [])
  }

  lemma TwoSleepersSlept()
    ensures forall id :: Slept(TwoSleepers().sleepers, id) <==> id == 0 || id == 1
  {
    var sleepers := TwoSleepers().sleepers;
    assert sleepers[0].id == 1 && sleepers[1].id == 0;
  }

  lemma TwoSleepersPlaces(t: Tid)
    requires t in TwoSleepers().threads
    ensures PlaceInv(TwoSleepers(), t)
  {
    TwoSleepersSlept();
  }

  lemma TwoSleepersQueued()
    ensures SleepInv(TwoSleepers())
  {
    var s := TwoSleepers();
    TwoSleepersSlept();
    assert s.threads.Keys == {0, 1, 2, 3};
    assert DistinctSleeps(s.threads);
  }

  lemma TwoSleepersRun()
    ensures RunInv(TwoSleepers()) && ReaperInv(TwoSleepers())
  {
  }

  lemma TwoSleepersHold()
    ensures Inv(TwoSleepers())
  {
    var s := TwoSleepers();
    TwoSleepersQueued();
    TwoSleepersRun();
    forall t | t in s.threads
      ensures PlaceInv(s, t)
    {
      TwoSleepersPlaces(t);
    }
  }

  /** Thread 2 is not woken though it is due. */
  lemma DueSleeperWaits() returns (s: State)
    ensures Inv(s) && s.sleepers == [Entry(1, 3, 20), Entry(0, 2, 10)] && s.time == 10
    ensures SleepersExist(s) && Drain(s) == s
  {
    s := TwoSleepers();
    TwoSleepersHold();
    assert s.sleepers[0].endTime > s.time;
  }

  lemma ConsumeHeadFields(s: State)
    requires s.sleepers != [] && s.sleepers[0].thread in s.threads
    ensures var r := ConsumeHead(s);
            && r.sleepers == s.sleepers[1..] && r.time == s.time
            && r.freed == s.freed + [s.sleepers[0].id] && r.threads.Keys == s.threads.Keys
  {
  }

  lemma {:induction false} DrainAll(s: State)
    requires SleepersExist(s)
    requires forall i :: 0 <= i < |s.sleepers| ==> s.sleepers[i].endTime <= s.time
    ensures Drain(s).sleepers == [] && Drain(s).freed == s.freed + Ids(s.sleepers)
    decreases |s.sleepers|
  {
    if s.sleepers != [] {
      ConsumeHeadFields(s);
      var r := ConsumeHead(s);
      DrainAll(r);
      assert s.freed + [s.sleepers[0].id] + Ids(s.sleepers[1..])
          == s.freed + ([s.sleepers[0].id] + Ids(s.sleepers[1..]));
    }
  }

  lemma ClockKeepsInv(s: State, time: nat)
    requires Inv(s)
    ensures Inv(s.(time := time))
  {
    ListsUntouched(s, s.(time := time));
  }

  // ---------------------------------------------------------------- blocking

  /** The current thread joins a queue. */
  lemma WaitLists(s: State, q: Qid, interruptible: bool)
    requires ListsInv(s) && q in s.queues && s.current in s.threads && s.threads[s.current].at == Nowhere
    ensures ListsInv(WithThread(Joined(s, q), s.current, Blocked(interruptible, InWait(q, s.tickets))))
  {
    var c := s.current;
    var m := WithThread(Joined(s, q), c, Blocked(interruptible, InWait(q, s.tickets)));
    assert QueueInv(s, q) && c !in s.queues[q];
    forall u | u in m.threads
      ensures PlaceInv(m, u)
    {
      if u != c {
        assert PlaceInv(s, u) && On(s, u) == On(m, u);
      } else {
        assert On(m, c);
      }
    }
    forall p | p in m.queues
      ensures QueueInv(m, p)
    {
      assert QueueInv(s, p);
      forall i | 0 <= i < |s.queues[p]|
        ensures s.queues[p][i] != c && s.threads[s.queues[p][i]].at.ticket < s.tickets
      {
        assert PlaceInv(s, s.queues[p][i]);
      }
    }
  }

  lemma ScheduleKeepsLists(s: State)
    requires ListsInv(s)
    ensures ListsInv(DoSchedule(s))
  {
    ListsUntouched(s, DoSchedule(s));
  }

  /** A live thread other than the reaper changes. */
  lemma ReaperUntouched(s: State, next: State, t: Tid)
    requires ReaperInv(s) && t != s.reaper && t !in s.reaperList && t !in s.reaped
    requires next.reaper == s.reaper && next.idle == s.idle
    requires next.reaperList == s.reaperList && next.reaped == s.reaped
    requires next.threads.Keys == s.threads.Keys + {t}
    requires forall u :: u in s.threads && u != t ==> next.threads[u] == s.threads[u]
    ensures ReaperInv(next)
  {
  }

  lemma CurrentIsLive(s: State)
    requires RunInv(s) && ReaperInv(s)
    ensures s.threads[s.current].state == Running || s.current == s.idle
    ensures s.current !in s.reaperList && s.current !in s.reaped
  {
  }

  lemma WaitKeepsInv(s: State, q: Qid, interruptible: bool, pending: bool)
    requires Inv(s) && Enabled(s, WaitOp(q, interruptible, pending))
    ensures Inv(Wait(s, q, interruptible, pending))
  {
    if !(interruptible && pending) {
      var th := Blocked(interruptible, InWait(q, s.tickets));
      WaitLists(s, q, interruptible);
      BlockedRuns(s, Joined(s, q), th);
      BlockedReaper(s, Joined(s, q), th);
      ScheduleKeepsLists(WithThread(Joined(s, q), s.current, th));
    }
  }

  lemma BlockedReaper(s: State, joined: State, th: Thread)
    requires RunInv(s) && ReaperInv(s) && s.current != s.reaper
    requires joined.threads == s.threads && joined.reaper == s.reaper && joined.idle == s.idle
    requires joined.reaperList == s.reaperList && joined.reaped == s.reaped
    ensures ReaperInv(DoSchedule(WithThread(joined, s.current, th)))
  {
    CurrentIsLive(s);
    ReaperUntouched(s, DoSchedule(WithThread(joined, s.current, th)), s.current);
  }

  /** After a block the run queue is in order, whatever lists the thread joined. */
  lemma BlockedRuns(s: State, joined: State, th: Thread)
    requires RunInv(s) && s.current != s.idle && th.state != Running
    requires joined.threads == s.threads && joined.runQueue == s.runQueue
    requires joined.current == s.current && joined.idle == s.idle
    ensures RunInv(DoSchedule(WithThread(joined, s.current, th)))
  {
    CurrentStops(joined, th);
    DoScheduleRuns(WithThread(joined, s.current, th));
  }

  /** The current thread blocks without joining a list. */
  lemma BlockLists(s: State, interruptible: bool)
    requires ListsInv(s) && s.current in s.threads && s.threads[s.current].at == Nowhere
    ensures ListsInv(WithThread(s, s.current, Blocked(interruptible, InBlock)))
  {
    var c := s.current;
    var m := WithThread(s, c, Blocked(interruptible, InBlock));
    forall u | u in m.threads
      ensures PlaceInv(m, u)
    {
      if u != c {
        assert PlaceInv(s, u) && On(s, u) == On(m, u);
      }
    }
    forall p | p in m.queues
      ensures QueueInv(m, p)
    {
      assert QueueInv(s, p);
    }
  }

  lemma BlockKeepsRunAndLists(s: State, interruptible: bool)
    requires RunInv(s) && ListsInv(s) && s.current != s.idle && s.threads[s.current].at == Nowhere
    ensures RunInv(BlockAt(s, interruptible, InBlock)) && ListsInv(BlockAt(s, interruptible, InBlock))
  {
    var th := Blocked(interruptible, InBlock);
    BlockLists(s, interruptible);
    CurrentStops(s, th);
    DoScheduleRuns(WithThread(s, s.current, th));
    ScheduleKeepsLists(WithThread(s, s.current, th));
  }

  /** The sleep queue after a new entry, whatever its place in it. */
  lemma NewEntryKeepsSleepInv(s: State, m: State, e: Entry)
    requires ListsInv(s) && e.thread in s.threads && s.threads[e.thread].at == Nowhere && e.id == s.nextEntry
    requires Latest(m.sleepers) && DistinctIds(m.sleepers)
    requires forall id :: Slept(m.sleepers, id) <==> Slept(s.sleepers, id) || id == e.id
    requires forall x :: x in m.sleepers <==> x in s.sleepers || x == e
    requires m.threads == s.threads[e.thread := Blocked(true, InSleep(e.id))]
    requires m.freed == s.freed && m.nextEntry == s.nextEntry + 1
    ensures SleepInv(m)
  {
    NewEntryIsFresh(s);
    forall i | 0 <= i < |m.sleepers|
      ensures m.sleepers[i].thread in m.threads && m.threads[m.sleepers[i].thread].at == InSleep(m.sleepers[i].id)
    {
      assert m.sleepers[i] in m.sleepers;
    }
    forall t | t in s.threads && s.threads[t].at.InSleep?
      ensures s.threads[t].at.entry < s.nextEntry
    {
      assert PlaceInv(s, t);
    }
  }

  lemma NewEntryKeepsPlaces(s: State, m: State, e: Entry)
    requires ListsInv(s) && e.thread in s.threads && s.threads[e.thread].at == Nowhere && e.id == s.nextEntry
    requires forall id :: Slept(m.sleepers, id) <==> Slept(s.sleepers, id) || id == e.id
    requires m.threads == s.threads[e.thread := Blocked(true, InSleep(e.id))]
    requires m.freed == s.freed && m.nextEntry == s.nextEntry + 1
    requires m.queues == s.queues && m.woken == s.woken && m.tickets == s.tickets
    ensures forall u :: u in m.threads ==> PlaceInv(m, u)
    ensures forall q :: q in m.queues ==> QueueInv(m, q)
  {
    NewEntryIsFresh(s);
    forall u | u in m.threads
      ensures PlaceInv(m, u)
    {
      if u != e.thread {
        assert PlaceInv(s, u) && On(s, u) == On(m, u);
      } else {
        assert On(m, u);
      }
    }
    forall p | p in m.queues
      ensures QueueInv(m, p)
    {
      assert QueueInv(s, p);
    }
  }

  lemma SleepSleepers(s: State, duration: nat)
    requires ListsInv(s) && s.current in s.threads && s.threads[s.current].at == Nowhere
    ensures SleepInv(WithThread(Dozing(s, duration), s.current, Blocked(true, InSleep(s.nextEntry))))
  {
    var e := Entry(s.nextEntry, s.current, s.time + duration);
    var m := WithThread(Dozing(s, duration), s.current, Blocked(true, InSleep(s.nextEntry)));
    NewEntryIsFresh(s);
    InsertEntryEffect(s.sleepers, e);
    assert m.sleepers == InsertEntry(s.sleepers, e);
    NewEntryKeepsSleepInv(s, m, e);
  }

  lemma SleepPlaces(s: State, duration: nat)
    requires ListsInv(s) && s.current in s.threads && s.threads[s.current].at == Nowhere
    ensures var m := WithThread(Dozing(s, duration), s.current, Blocked(true, InSleep(s.nextEntry)));
            && (forall u :: u in m.threads ==> PlaceInv(m, u))
            && (forall q :: q in m.queues ==> QueueInv(m, q))
  {
    var e := Entry(s.nextEntry, s.current, s.time + duration);
    NewEntryIsFresh(s);
    InsertEntryEffect(s.sleepers, e);
    NewEntryKeepsPlaces(s, WithThread(Dozing(s, duration), s.current, Blocked(true, InSleep(s.nextEntry))), e);
  }

  /** The current thread's entry joins the sleep queue. */
  lemma SleepLists(s: State, duration: nat)
    requires ListsInv(s) && s.current in s.threads && s.threads[s.current].at == Nowhere
    ensures ListsInv(WithThread(Dozing(s, duration), s.current, Blocked(true, InSleep(s.nextEntry))))
  {
    SleepSleepers(s, duration);
    SleepPlaces(s, duration);
  }

  lemma NewEntryIsFresh(s: State)
    requires ListsInv(s)
    ensures !Slept(s.sleepers, s.nextEntry) && s.nextEntry !in s.freed
  {
    forall i | 0 <= i < |s.sleepers|
      ensures s.sleepers[i].id != s.nextEntry
    {
      assert PlaceInv(s, s.sleepers[i].thread);
    }
  }

  /** A pending signal: the new entry is made and freed at once. */
  lemma SleepRefusedLists(s: State)
    requires ListsInv(s)
    ensures ListsInv(s.(nextEntry := s.nextEntry + 1, freed := s.freed + [s.nextEntry]))
  {
    var next := s.(nextEntry := s.nextEntry + 1, freed := s.freed + [s.nextEntry]);
    NewEntryIsFresh(s);
    forall u | u in next.threads
      ensures PlaceInv(next, u)
    {
      assert PlaceInv(s, u) && On(s, u) == On(next, u);
    }
    forall p | p in next.queues
      ensures QueueInv(next, p)
    {
      assert QueueInv(s, p);
    }
  }

  lemma SleepKeepsInv(s: State, duration: nat, pending: bool)
    requires Inv(s) && Enabled(s, SleepOp(duration, pending))
    ensures Inv(Sleep(s, duration, pending))
  {
    if pending {
      SleepRefusedLists(s);
    } else {
      var th := Blocked(true, InSleep(s.nextEntry));
      SleepLists(s, duration);
      BlockedRuns(s, Dozing(s, duration), th);
      BlockedReaper(s, Dozing(s, duration), th);
      ScheduleKeepsLists(WithThread(Dozing(s, duration), s.current, th));
    }
  }

  lemma BlockKeepsInv(s: State, interruptible: bool)
    requires Inv(s) && Acting(s)
    ensures Inv(BlockAt(s, interruptible, InBlock))
  {
    BlockKeepsRunAndLists(s, interruptible);
    BlockedReaper(s, s, Blocked(interruptible, InBlock));
  }

  // ---------------------------------------------------------------- running on after a block

  lemma {:induction false} WithoutPlace(queue: seq<Tid>, t: Tid) returns (p: nat)
    requires t in queue
    ensures p < |queue| && queue[p] == t && Without(queue, t) == queue[..p] + queue[p + 1..]
  {
    if queue[0] == t {
      p := 0;
    } else {
      var k := WithoutPlace(queue[1..], t);
      p := k + 1;
      assert queue[..p] == [queue[0]] + queue[1..][..k] && queue[p + 1..] == queue[1..][k + 1..];
    }
  }

  /** Leaving a queue takes out that thread alone. */
  lemma WithoutMembers(queue: seq<Tid>, t: Tid)
    requires NoDuplicates(queue)
    ensures forall u :: u in Without(queue, t) <==> u in queue && u != t
  {
    if t in queue {
      var p := WithoutPlace(queue, t);
      assert queue == queue[..p] + [t] + queue[p + 1..];
      assert t !in queue[..p] && t !in queue[p + 1..];
    } else {
      WithoutAbsent(queue, t);
    }
  }

  /** Leaving a queue keeps the order of the others. */
  lemma WithoutOrder(s: State, q: Qid, t: Tid)
    requires q in s.queues && QueueInv(s, q)
    ensures QueueInv(s.(queues := s.queues[q := Without(s.queues[q], t)]), q)
  {
    var queue := s.queues[q];
    if t in queue {
      var p := WithoutPlace(queue, t);
      RemovedKeepsOrder(s, q, p);
    } else {
      WithoutAbsent(queue, t);
    }
  }

  lemma RemovedKeepsOrder(s: State, q: Qid, p: nat)
    requires q in s.queues && QueueInv(s, q) && p < |s.queues[q]|
    ensures QueueInv(s.(queues := s.queues[q := s.queues[q][..p] + s.queues[q][p + 1..]]), q)
  {
    var queue := s.queues[q];
    var less := queue[..p] + queue[p + 1..];
    assert forall i :: 0 <= i < |less| ==> less[i] == queue[if i < p then i else i + 1];
  }

  lemma FinishWaitLists(s: State, q: Qid)
    requires ListsInv(s) && s.current in s.threads && s.threads[s.current].state == Running
    requires s.threads[s.current].at.InWait? && s.threads[s.current].at.queue == q
    ensures ListsInv(Finish(s))
  {
    var c := s.current;
    var next := Finish(s);
    assert PlaceInv(s, c) && QueueInv(s, q);
    WithoutMembers(s.queues[q], c);
    WithoutOrder(s, q, c);
    forall u | u in next.threads
      ensures PlaceInv(next, u)
    {
      if u != c {
        assert PlaceInv(s, u) && On(s, u) == On(next, u);
      }
    }
    forall p | p in next.queues
      ensures QueueInv(next, p)
    {
      assert QueueInv(s, p) && c !in next.queues[p];
    }
  }

  lemma FinishSleepPlaces(s: State, u: Tid)
    requires ListsInv(s) && s.current in s.threads && s.threads[s.current].state == Running
    requires s.threads[s.current].at.InSleep? && u in s.threads
    ensures PlaceInv(Finish(s), u)
  {
    var c := s.current;
    var id := s.threads[c].at.entry;
    assert PlaceInv(s, c) && PlaceInv(s, u);
    if s.threads[c].interrupted {
      WithoutEntryEffect(s.sleepers, id);
    }
    if u != c {
      assert On(s, u) == On(Finish(s), u);
    }
  }

  lemma FinishSleepQueue(s: State)
    requires ListsInv(s) && s.current in s.threads && s.threads[s.current].at.InSleep?
    requires s.threads[s.current].state == Running
    ensures SleepInv(Finish(s))
  {
    var c := s.current;
    var next := Finish(s);
    assert PlaceInv(s, c);
    if s.threads[c].interrupted {
      WithoutEntryEffect(s.sleepers, s.threads[c].at.entry);
    }
    forall i | 0 <= i < |next.sleepers|
      ensures next.sleepers[i].thread in next.threads
      ensures next.threads[next.sleepers[i].thread].at == InSleep(next.sleepers[i].id)
    {
      assert next.sleepers[i] in s.sleepers && Slept(next.sleepers, next.sleepers[i].id);
    }
  }

  lemma FinishSleepLists(s: State)
    requires ListsInv(s) && s.current in s.threads && s.threads[s.current].state == Running
    requires s.threads[s.current].at.InSleep?
    ensures ListsInv(Finish(s))
  {
    var next := Finish(s);
    FinishSleepQueue(s);
    forall u | u in next.threads
      ensures PlaceInv(next, u)
    {
      FinishSleepPlaces(s, u);
    }
    forall p | p in next.queues
      ensures QueueInv(next, p)
    {
      assert QueueInv(s, p) && PlaceInv(s, s.current);
    }
  }

  lemma FinishKeepsInv(s: State)
    requires Inv(s) && Enabled(s, FinishOp)
    ensures Inv(Finish(s))
  {
    var c := s.current;
    assert PlaceInv(s, c);
    FinishKeepsRunAndReaper(s);
    match s.threads[c].at
    case InWait(q, _) => FinishWaitLists(s, q);
    case InSleep(_) => FinishSleepLists(s);
    case _ => FinishBlockLists(s);
  }

  lemma FinishBlockLists(s: State)
    requires ListsInv(s) && s.current in s.threads && s.threads[s.current].at == InBlock
    requires s.threads[s.current].state == Running
    ensures ListsInv(Finish(s))
  {
    var c := s.current;
    var next := Finish(s);
    forall u | u in next.threads
      ensures PlaceInv(next, u)
    {
      if u != c {
        assert PlaceInv(s, u) && On(s, u) == On(next, u);
      }
    }
    forall p | p in next.queues
      ensures QueueInv(next, p)
    {
      assert QueueInv(s, p);
    }
  }

  lemma FinishKeepsRunAndReaper(s: State)
    requires RunInv(s) && ReaperInv(s) && s.threads[s.current].at != Nowhere
    requires s.current == s.idle ==> s.threads[s.idle].at == Nowhere
    ensures RunInv(Finish(s)) && ReaperInv(Finish(s)) && s.threads[s.current].state == Running
  {
  }

  // ---------------------------------------------------------------- exit and reaping

  /** A thread suspended nowhere changes into another such; no list is concerned. */
  lemma NowhereKeepsLists(s: State, t: Tid, th: Thread)
    requires ListsInv(s) && (t in s.threads ==> s.threads[t].at == Nowhere)
    requires th.at == Nowhere && th.state != Intr && th.state != Unintr
    ensures ListsInv(WithThread(s, t, th))
  {
    var next := WithThread(s, t, th);
    forall u | u in next.threads
      ensures PlaceInv(next, u)
    {
      if u != t {
        assert PlaceInv(s, u) && On(s, u) == On(next, u);
      }
    }
    forall q | q in next.queues
      ensures QueueInv(next, q)
    {
      assert QueueInv(s, q);
    }
  }

  lemma ReapKeepsLists(s: State, t: Tid)
    requires ListsInv(s) && t in s.threads && s.threads[t].at == Nowhere
    ensures ListsInv(Reap(s, t))
  {
    var next := Reap(s, t);
    forall u | u in next.threads
      ensures PlaceInv(next, u)
    {
      assert PlaceInv(s, u) && On(s, u) == On(next, u);
    }
    forall q | q in next.queues
      ensures QueueInv(next, q)
    {
      assert QueueInv(s, q);
      forall i | 0 <= i < |s.queues[q]|
        ensures s.queues[q][i] != t
      {
      }
    }
  }

  lemma ZombieIsNowhere(s: State, t: Tid)
    requires ListsInv(s) && t in s.threads && s.threads[t].state == Zombie
    ensures s.threads[t].at == Nowhere
  {
    assert PlaceInv(s, t);
  }

  lemma ReapZombieKeepsInv(s: State, t: Tid)
    requires Inv(s) && t in s.threads && s.threads[t].state == Zombie && t !in s.reaperList
    ensures Inv(Reap(s, t))
  {
    ZombieIsNowhere(s, t);
    ReapKeepsLists(s, t);
    assert RunInv(Reap(s, t));
    assert ReaperInv(Reap(s, t));
  }

  lemma TakeFirstKeepsInv(s: State)
    requires Inv(s) && s.reaperList != []
    ensures Inv(s.(reaperList := s.reaperList[1..]))
  {
    ListsUntouched(s, s.(reaperList := s.reaperList[1..]));
  }

  lemma {:induction false} ReapAllKeepsInv(s: State)
    requires Inv(s)
    ensures Inv(ReapAll(s))
    decreases |s.reaperList|
  {
    if s.reaperList != [] {
      TakeFirstKeepsInv(s);
      var rest := s.(reaperList := s.reaperList[1..]);
      ReapZombieKeepsInv(rest, s.reaperList[0]);
      ReapAllKeepsInv(Reap(rest, s.reaperList[0]));
    }
  }

  /** The reaper's loop reaps exactly the listed threads, in order, and touches nothing else. */
  lemma {:induction false} ReapAllEffect(s: State)
    ensures var r := ReapAll(s);
            && r.reaperList == [] && r.reaped == s.reaped + s.reaperList
            && r.current == s.current && r.runQueue == s.runQueue && r.reaper == s.reaper && r.idle == s.idle
            && r.threads == s.threads - (set t | t in s.reaperList)
    decreases |s.reaperList|
  {
    if s.reaperList != [] {
      var t := s.reaperList[0];
      var rest := Reap(s.(reaperList := s.reaperList[1..]), t);
      ReapAllEffect(rest);
      assert s.reaped + [t] + s.reaperList[1..] == s.reaped + s.reaperList;
      assert (set u | u in s.reaperList) == {t} + (set u | u in s.reaperList[1..]);
      assert s.threads - {t} - (set u | u in s.reaperList[1..]) == s.threads - (set u | u in s.reaperList);
    }
  }

  lemma ReaperLoopKeepsInv(s: State)
    requires Inv(s) && Enabled(s, ReaperLoop)
    ensures Inv(BlockAt(ReapAll(s), false, InBlock))
  {
    ReapAllKeepsInv(s);
    ReapAllEffect(s);
    var r := ReapAll(s);
    BlockKeepsRunAndLists(r, false);
    assert ReaperInv(BlockAt(r, false, InBlock));
  }

  lemma ExitRun(s: State, autoReap: bool)
    requires RunInv(s) && ReaperInv(s) && s.current != s.idle && s.current != s.reaper
    ensures RunInv(Exit(s, autoReap))
  {
    var dead := WithThread(s, s.current, Thread(Zombie, false, Nowhere));
    CurrentStops(s, Thread(Zombie, false, Nowhere));
    if autoReap {
      var listed := dead.(reaperList := s.reaperList + [s.current]);
      assert Ready(listed);
      WakeUpKeepsReady(listed, s.reaper, false);
      DoScheduleRuns(WakeUpSig(listed, s.reaper, false));
    } else {
      DoScheduleRuns(dead);
    }
  }

  lemma ExitLists(s: State, autoReap: bool)
    requires ListsInv(s) && ReaperInv(s) && s.current in s.threads && s.threads[s.current].at == Nowhere
    requires s.current != s.reaper
    ensures ListsInv(Exit(s, autoReap))
  {
    var dead := WithThread(s, s.current, Thread(Zombie, false, Nowhere));
    NowhereKeepsLists(s, s.current, Thread(Zombie, false, Nowhere));
    if autoReap {
      var listed := dead.(reaperList := s.reaperList + [s.current]);
      ListsUntouched(dead, listed);
      WakeUpKeepsLists(listed, s.reaper, false);
      ScheduleKeepsLists(WakeUpSig(listed, s.reaper, false));
    } else {
      ScheduleKeepsLists(dead);
    }
  }

  /** Handing a zombie to the reaper leaves the reaper runnable. */
  lemma ExitReaper(s: State, autoReap: bool)
    requires RunInv(s) && ReaperInv(s) && s.current != s.idle && s.current != s.reaper
    ensures ReaperInv(Exit(s, autoReap))
  {
    CurrentIsLive(s);
    var dead := WithThread(s, s.current, Thread(Zombie, false, Nowhere));
    if !autoReap {
      ReaperUntouched(s, DoSchedule(dead), s.current);
    }
  }

  lemma SpawnKeepsInv(s: State, t: Tid)
    requires Inv(s) && t !in s.threads && t !in s.reaped
    ensures Inv(WithThread(s, t, Thread(Startup, false, Nowhere)))
  {
    NowhereKeepsLists(s, t, Thread(Startup, false, Nowhere));
    var next := WithThread(s, t, Thread(Startup, false, Nowhere));
    assert RunInv(next);
    ReaperUntouched(s, next, t);
  }

  lemma StartKeepsInv(s: State, t: Tid)
    requires Inv(s) && Enabled(s, Start(t))
    ensures Inv(WakeUpSig(s, t, false))
  {
    assert PlaceInv(s, t);
    WakeUpKeepsLists(s, t, false);
    WakeUpKeepsRun(s, t, false);
  }

  lemma SignalKeepsInv(s: State, t: Tid)
    requires Inv(s) && Enabled(s, Signal(t))
    ensures Inv(WakeUpSig(s, t, true))
  {
    WakeUpKeepsLists(s, t, true);
    WakeUpKeepsRun(s, t, true);
  }

  lemma YieldKeepsInv(s: State)
    requires Inv(s) && Acting(s)
    ensures Inv(Yield(s))
  {
    var th := s.threads[s.current].(interrupted := false);
    assert PlaceInv(s, s.current);
    NowhereKeepsLists(s, s.current, th);
    ListsUntouched(WithThread(s, s.current, th), Yield(s));
    YieldKeepsRun(s);
    CurrentIsLive(s);
    ReaperUntouched(s, Yield(s), s.current);
  }

  lemma TickKeepsInv(s: State, ticks: nat)
    requires Inv(s)
    ensures SleepersExist(s.(time := s.time + ticks)) && Inv(Drain(s.(time := s.time + ticks)))
  {
    ClockKeepsInv(s, s.time + ticks);
    DrainKeepsInv(s.(time := s.time + ticks));
  }

  lemma ExitKeepsInv(s: State, autoReap: bool)
    requires Inv(s) && Acting(s)
    ensures Inv(Exit(s, autoReap))
  {
    ExitRun(s, autoReap);
    ExitLists(s, autoReap);
    ExitReaper(s, autoReap);
  }

  lemma YieldingKeepsInv(s: State, op: Op)
    requires Inv(s) && Shaped(s) && Enabled(s, op) && Yielding(op)
    ensures Inv(YieldStep(s, op))
  {
    match op
    case YieldOp => YieldKeepsInv(s);
    case WaitOp(q, interruptible, pending) => WaitKeepsInv(s, q, interruptible, pending);
    case BlockOp(interruptible, pending) => BlockKeepsInv(s, interruptible);
    case SleepOp(duration, pending) => SleepKeepsInv(s, duration, pending);
    case ExitOp(autoReap) => ExitKeepsInv(s, autoReap);
    case IdleLoop => IdleKeepsInv(s);
    case ReaperLoop => ReaperLoopKeepsInv(s);
  }

  lemma WakingKeepsInv(s: State, op: Op)
    requires Inv(s) && Shaped(s) && Enabled(s, op) && Waking(op)
    ensures Inv(StayStep(s, op))
  {
    match op
    case Start(t) => StartKeepsInv(s, t);
    case WakeOneOp(q) => WakeOneKeepsInv(s, q);
    case WakeAllOp(q) => WakeAllKeepsInv(s, q);
    case Signal(t) => SignalKeepsInv(s, t);
    case Tick(ticks) => TickKeepsInv(s, ticks);
  }

  lemma StayingKeepsInv(s: State, op: Op)
    requires Inv(s) && Shaped(s) && Enabled(s, op) && !Yielding(op) && !Waking(op)
    ensures Inv(StayStep(s, op))
  {
    match op
    case Spawn(t) => SpawnKeepsInv(s, t);
    case FinishOp => FinishKeepsInv(s);
    case SetTime(time) => ClockKeepsInv(s, time);
    case ReapZombie(t) => ReapZombieKeepsInv(s, t);
  }

  lemma StepKeepsInv(s: State, op: Op)
    requires Inv(s) && Shaped(s) && Enabled(s, op)
    ensures Inv(Step(s, op))
  {
    if Yielding(op) {
      YieldingKeepsInv(s, op);
    } else if Waking(op) {
      WakingKeepsInv(s, op);
    } else {
      StayingKeepsInv(s, op);
    }
  }

  lemma IdleKeepsInv(s: State)
    requires Inv(s) && s.current == s.idle
    ensures Inv(DoSchedule(s))
  {
    assert Ready(s);
    DoScheduleRuns(s);
    ScheduleKeepsLists(s);
  }

  // ---------------------------------------------------------------- whole runs

  /** A run of steps with its intermediate states. */
  datatype Trace =
    | Begin(state: State)
    | Then(before: Trace, op: Op, state: State)

  ghost predicate IsTrace(run: Trace) {
    match run
    case Begin(_) => true
    case Then(before, op, next) => IsTrace(before) && Leads(before.state, op, next)
  }

  ghost predicate Leads(s: State, op: Op, next: State) {
    Shaped(s) && Enabled(s, op) && next == Step(s, op)
  }

  function First(run: Trace): State {
    match run
    case Begin(s) => s
    case Then(before, _, _) => First(before)
  }

  /** The invariant holds after any run. */
  lemma {:induction false} RunKeepsInv(run: Trace)
    requires IsTrace(run) && Inv(First(run))
    ensures Inv(run.state)
  {
    match run
    case Begin(_) =>
    case Then(before, op, _) =>
      RunKeepsInv(before);
      StepKeepsInv(before.state, op);
  }

  /** The state once the kernel has booted: idle running, the reaper created but never woken, empty wait queues. */
  lemma BootHolds(idle: Tid, reaper: Tid, queues: map<Qid, seq<Tid>>, time: nat)
    requires idle != reaper && forall q :: q in queues ==> queues[q] == []
    ensures var created := Thread(Startup, false, Nowhere);
            Inv(State(map[idle := created, reaper := created], [], idle, idle, reaper, queues, [], time,
                      [], {}, 0, 0, [], []))
  {
  }

  // ---------------------------------------------------------------- what a thread and its wakers see

  /** ProcWaitQueueWait and ProcYieldBlock return whether schedInterrupted is set. */
  ghost function Returned(s: State): bool
    requires s.current in s.threads
  {
    s.threads[s.current].interrupted
  }

  /**
   No wake-up is lost and none is invented: when a waiter runs on, it reports an interruption exactly if
   no WakeOne or WakeAll has removed it, even if a signal made it runnable first.
   */
  lemma WaitReturnsFalseIffWoken(s: State)
    requires Inv(s) && s.current in s.threads && s.threads[s.current].at.InWait?
    ensures !Returned(s) <==> s.current in s.woken
    ensures Returned(s) <==> s.current in s.queues[s.threads[s.current].at.queue]
    ensures forall q :: q in Finish(s).queues ==> s.current !in Finish(s).queues[q]
  {
    var c := s.current;
    assert PlaceInv(s, c);
    FinishKeepsInv(s);
    forall q | q in Finish(s).queues
      ensures c !in Finish(s).queues[q]
    {
      assert QueueInv(Finish(s), q);
    }
  }

  /** A wake changes who has been woken by exactly the oldest waiter of that queue. */
  lemma WakeOnePicksOldest(s: State, q: Qid)
    requires Inv(s) && q in s.queues && s.queues[q] != []
    ensures var t := s.queues[q][0];
            && t in s.threads
            && WakeOne(s, q).woken == s.woken + {t}
            && WakeOne(s, q).threads[t].state == Running && !WakeOne(s, q).threads[t].interrupted
            && forall u :: u in s.queues[q] && u != t ==>
                 u in s.threads && s.threads[t].at.ticket < s.threads[u].at.ticket
  {
    var t := s.queues[q][0];
    assert QueueInv(s, q) && PlaceInv(s, t);
    forall u | u in s.queues[q] && u != t
      ensures u in s.threads && s.threads[t].at.ticket < s.threads[u].at.ticket
    {
      var i :| 0 <= i < |s.queues[q]| && s.queues[q][i] == u;
      assert i > 0;
    }
  }

  /** Only a WakeOne or a WakeAll marks a thread as woken, and only a thread that was on that queue. */
  lemma OnlyWakesMarkWoken(s: State, op: Op, t: Tid)
    requires Shaped(s) && Enabled(s, op) && t !in s.woken && t in Step(s, op).woken
    ensures (op.WakeOneOp? || op.WakeAllOp?) && op.q in s.queues && t in s.queues[op.q]
    ensures op.WakeOneOp? ==> t == s.queues[op.q][0]
  {
    if Yielding(op) {
      YieldingMarksNone(s, op);
    } else {
      StayingMarks(s, op);
    }
  }

  lemma StayingMarks(s: State, op: Op)
    requires Shaped(s) && Enabled(s, op) && !Yielding(op)
    ensures StayStep(s, op).woken == s.woken
      + (if op.WakeAllOp? && op.q in s.queues then (set t | t in s.queues[op.q]) else {})
      + (if op.WakeOneOp? && op.q in s.queues && s.queues[op.q] != [] then {s.queues[op.q][0]} else {})
  {
    match op
    case WakeAllOp(q) => WakeAllMarks(s, q);
    case Tick(ticks) => DrainMarksNone(s.(time := s.time + ticks));
    case _ =>
  }

  lemma YieldingMarksNone(s: State, op: Op)
    requires Shaped(s) && Enabled(s, op) && Yielding(op)
    ensures YieldStep(s, op).woken <= s.woken
  {
    if op.ReaperLoop? {
      ReapAllMarksNone(s);
    }
  }

  lemma {:induction false} WakeAllMarks(s: State, q: Qid)
    requires WaitersExist(s, q)
    ensures WakeAll(s, q).woken == s.woken + if q in s.queues then (set t | t in s.queues[q]) else {}
    decreases if q in s.queues then |s.queues[q]| else 0
  {
    if q in s.queues && s.queues[q] != [] {
      WakeAllMarks(WakeOne(s, q), q);
      assert (set t | t in s.queues[q]) == {s.queues[q][0]} + (set t | t in s.queues[q][1..]);
    }
  }

  lemma {:induction false} DrainMarksNone(s: State)
    requires SleepersExist(s)
    ensures Drain(s).woken == s.woken
    decreases |s.sleepers|
  {
    if s.sleepers != [] && s.time >= s.sleepers[0].endTime {
      DrainMarksNone(ConsumeHead(s));
    }
  }

  lemma {:induction false} ReapAllMarksNone(s: State)
    ensures ReapAll(s).woken == s.woken
    decreases |s.reaperList|
  {
    if s.reaperList != [] {
      ReapAllMarksNone(Reap(s.(reaperList := s.reaperList[1..]), s.reaperList[0]));
    }
  }

  /**
   TimerSleep's rule for who frees the entry: the block reports an interruption exactly if the timer
   has not consumed the entry, and after running on the entry has been freed exactly once.
   */
  lemma SleepEntryFreedOnce(s: State)
    requires Inv(s) && s.current in s.threads && s.threads[s.current].at.InSleep?
    ensures var id := s.threads[s.current].at.entry;
            && (Returned(s) <==> Slept(s.sleepers, id))
            && (Returned(s) <==> id !in s.freed)
            && multiset(Finish(s).freed)[id] == 1
            && !Slept(Finish(s).sleepers, id)
  {
    var id := s.threads[s.current].at.entry;
    assert PlaceInv(s, s.current);
    FinishKeepsInv(s);
    var f := Finish(s).freed;
    assert id in f;
    CountsOnce(f, id);
  }

  lemma {:induction false} CountsOnce(f: seq<nat>, id: nat)
    requires NoDuplicates(f)
    ensures multiset(f)[id] == if id in f then 1 else 0
  {
    if f != [] {
      var n := |f| - 1;
      assert f == f[..n] + [f[n]];
      CountsOnce(f[..n], id);
    }
  }

  /** The timer wakes no sleeper early: every entry it consumes was due. */
  lemma TickWakesOnlyTheDue(s: State, ticks: nat, i: nat)
    requires Inv(s) && i < |s.sleepers|
    ensures SleepersExist(s.(time := s.time + ticks))
    ensures !Slept(Drain(s.(time := s.time + ticks)).sleepers, s.sleepers[i].id) <==>
            forall j :: 0 <= j < |s.sleepers| ==> s.sleepers[j].endTime <= s.time + ticks
  {
    var later := s.(time := s.time + ticks);
    ClockKeepsInv(s, s.time + ticks);
    DrainIsAllOrNothing(later);
    assert Slept(s.sleepers, s.sleepers[i].id);
  }

  // ---------------------------------------------------------------- first come, first served

  /** The step takes the next thread off the run queue. */
  ghost predicate Pops(s: State, op: Op) {
    && s.runQueue != []
    && match op
       case YieldOp => true
       case IdleLoop => true
       case WaitOp(_, interruptible, pending) => !(interruptible && pending)
       case BlockOp(interruptible, pending) => !(interruptible && pending)
       case SleepOp(_, pending) => !pending
       case ExitOp(_) => true
       case ReaperLoop => true
       case _ => false
  }

  lemma {:induction false} WakeAllAppends(s: State, q: Qid)
    requires WaitersExist(s, q)
    ensures s.runQueue <= WakeAll(s, q).runQueue && WakeAll(s, q).current == s.current
    decreases if q in s.queues then |s.queues[q]| else 0
  {
    if q in s.queues && s.queues[q] != [] {
      WakeAllAppends(WakeOne(s, q), q);
    }
  }

  lemma {:induction false} DrainAppends(s: State)
    requires SleepersExist(s)
    ensures s.runQueue <= Drain(s).runQueue && Drain(s).current == s.current
    decreases |s.sleepers|
  {
    if s.sleepers != [] && s.time >= s.sleepers[0].endTime {
      DrainAppends(ConsumeHead(s));
    }
  }

  lemma YieldingIsFifo(s: State, op: Op)
    requires Shaped(s) && Enabled(s, op) && Yielding(op) && Pops(s, op)
    ensures YieldStep(s, op).current == s.runQueue[0] && s.runQueue[1..] <= YieldStep(s, op).runQueue
  {
    if op.ReaperLoop? {
      ReapAllEffect(s);
    }
  }

  lemma StayingAppends(s: State, op: Op)
    requires Shaped(s) && Enabled(s, op) && !Yielding(op)
    ensures StayStep(s, op).current == s.current && s.runQueue <= StayStep(s, op).runQueue
  {
    match op
    case WakeAllOp(q) => WakeAllAppends(s, q);
    case Tick(ticks) => DrainAppends(s.(time := s.time + ticks));
    case _ =>
  }

  /** A schedule runs the head of the queue; every other step only appends to it. */
  lemma StepIsFifo(s: State, op: Op)
    requires Shaped(s) && Enabled(s, op)
    ensures Pops(s, op) ==> Step(s, op).current == s.runQueue[0] && s.runQueue[1..] <= Step(s, op).runQueue
    ensures !Pops(s, op) && s.runQueue != [] ==> Step(s, op).current == s.current && s.runQueue <= Step(s, op).runQueue
  {
    if !Yielding(op) {
      StayingAppends(s, op);
    } else if Pops(s, op) {
      YieldingIsFifo(s, op);
    }
  }

  /** A schedule moves everyone one place forward; other steps move no one. */
  lemma StepShifts(s: State, op: Op, k: nat)
    requires Shaped(s) && Enabled(s, op) && k < |s.runQueue|
    ensures Pops(s, op) ==> Step(s, op).current == s.runQueue[0]
    ensures var p := k - if Pops(s, op) then 1 else 0;
            p >= 0 ==> p < |Step(s, op).runQueue| && Step(s, op).runQueue[p] == s.runQueue[k]
  {
    StepIsFifo(s, op);
  }

  /** The number of schedules in the run. */
  ghost function PopCount(run: Trace): nat {
    match run
    case Begin(_) => 0
    case Then(before, op, _) => PopCount(before) + if Pops(before.state, op) then 1 else 0
  }

  lemma LeadsShifts(s: State, op: Op, next: State, k: nat)
    requires Leads(s, op, next) && k < |s.runQueue|
    ensures Pops(s, op) ==> next.current == s.runQueue[0]
    ensures var p := k - if Pops(s, op) then 1 else 0;
            p >= 0 ==> p < |next.runQueue| && next.runQueue[p] == s.runQueue[k]
  {
    StepShifts(s, op, k);
  }

  /** While there have been at most k schedules, a thread queued at position k keeps its place in line. */
  lemma {:induction false} StaysInLine(run: Trace, k: nat)
    requires IsTrace(run) && k < |First(run).runQueue| && PopCount(run) <= k
    ensures k - PopCount(run) < |run.state.runQueue|
    ensures run.state.runQueue[k - PopCount(run)] == First(run).runQueue[k]
  {
    match run
    case Begin(_) =>
    case Then(before, op, next) =>
      StaysInLine(before, k);
      LeadsShifts(before.state, op, next, k - PopCount(before));
  }

  /** A thread queued at position k is run by the schedule after k others, whatever is woken meanwhile. */
  lemma RunsOnItsTurn(run: Trace, op: Op, next: State, k: nat)
    requires IsTrace(Then(run, op, next)) && k < |First(run).runQueue|
    requires PopCount(run) == k && Pops(run.state, op)
    ensures next.current == First(run).runQueue[k]
  {
    StaysInLine(run, k);
    LeadsShifts(run.state, op, next, 0);
  }
}
