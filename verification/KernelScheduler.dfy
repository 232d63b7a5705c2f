/**
 The scheduler, wait queue, timer and reaper code on the kernel's own lists: every operation carries
 out its step of SchedulingRuns by relinking entries, and leaves all the rings intact.
 */
module KernelScheduler {
  import opened Common
  import opened Lists
  import opened Scheduling
  import opened SchedulingRuns
  import opened ThreadLists

  /** The thread is on neither of the lists its scheduler entry serves. */
  ghost predicate Off(s: State, t: Tid) {
    t in s.threads && t !in s.runQueue && t !in s.reaperList
  }

  /** Waking the thread links its entry only if it is on no list. */
  ghost predicate Wakeable(s: State, t: Tid) {
    t in s.threads && (s.threads[t].state == Running || s.threads[t].state == Zombie || Off(s, t))
  }

  ghost predicate WaitersWakeable(s: State, q: Qid) {
    q in s.queues && forall i :: 0 <= i < |s.queues[q]| ==> Wakeable(s, s.queues[q][i])
  }

  ghost predicate SleepersWakeable(s: State) {
    forall i :: 0 <= i < |s.sleepers| ==> Wakeable(s, s.sleepers[i].thread)
  }

  ghost predicate Reapable(s: State, t: Tid) {
    t in s.threads && t !in s.runQueue && !OnSome(s.queues, t)
  }

  /** What the code relies on when it relinks entries without a check. */
  ghost predicate Admits(s: State, op: Op) {
    match op
    case Spawn(t) => t !in s.threads
    case Start(t) => Wakeable(s, t)
    case Signal(t) => Wakeable(s, t)
    case YieldOp => Off(s, s.current)
    case BlockOp(_, _) => Off(s, s.current)
    case SleepOp(_, _) => Off(s, s.current)
    case WaitOp(q, _, _) => q in s.queues && Off(s, s.current) && !OnSome(s.queues, s.current)
    case FinishOp => s.current in s.threads && QueuedWhereItWaits(s, s.current)
    case WakeOneOp(q) => q in s.queues ==> WaitersWakeable(s, q)
    case WakeAllOp(q) => q in s.queues ==> WaitersWakeable(s, q)
    case Tick(_) => SleepersWakeable(s)
    case SetTime(_) => true
    case IdleLoop => true
    case ExitOp(_) => Off(s, s.current) && Wakeable(s, s.reaper) && s.current != s.reaper
    case ReapZombie(t) => Reapable(s, t) && t !in s.reaperList
    case ReaperLoop => Off(s, s.current) && forall i :: 0 <= i < |s.reaperList| ==> Reapable(s, s.reaperList[i])
  }

  /** The thread is on no wait queue but the one it is suspended on. */
  ghost predicate QueuedWhereItWaits(s: State, t: Tid)
    requires t in s.threads
  {
    forall q :: q in s.queues && t in s.queues[q] ==> s.threads[t].at.InWait? && s.threads[t].at.queue == q
  }

  lemma InvQueued(s: State, t: Tid)
    requires Inv(s) && t in s.threads
    ensures QueuedWhereItWaits(s, t)
  {
    forall q | q in s.queues && t in s.queues[q]
      ensures s.threads[t].at.InWait? && s.threads[t].at.queue == q
    {
      assert QueueInv(s, q);
    }
  }

  lemma InvWakeable(s: State, t: Tid)
    requires Inv(s) && t in s.threads
    ensures Wakeable(s, t)
  {
  }

  lemma InvReapable(s: State, t: Tid)
    requires Inv(s) && t in s.threads && s.threads[t].state == Zombie
    ensures Reapable(s, t)
  {
    ZombieIsNowhere(s, t);
    InvQueued(s, t);
  }

  /** In every reachable state each enabled operation finds the entries it links unlinked. */
  lemma InvAdmits(s: State, op: Op)
    requires Inv(s) && Enabled(s, op)
    ensures Admits(s, op)
  {
    InvIsShaped(s);
    CurrentIsLive(s);
    InvQueued(s, s.current);
    forall t | t in s.threads
      ensures Wakeable(s, t)
    {
      InvWakeable(s, t);
    }
    forall t | t in s.threads && s.threads[t].state == Zombie
      ensures Reapable(s, t)
    {
      InvReapable(s, t);
    }
  }

  /** Whether a thread can be woken does not depend on the wait and sleep queues. */
  lemma StaysWakeable(s: State, n: State, t: Tid)
    requires Wakeable(s, t) && n.threads == s.threads && n.runQueue == s.runQueue && n.reaperList == s.reaperList
    ensures Wakeable(n, t)
  {
  }

  lemma JoinThenLeave(w: map<Qid, seq<Tid>>, q: Qid, t: Tid)
    requires q in w && !OnSome(w, t)
    ensures
      var joined := w[q := w[q] + [t]];
      t in joined[q] && Departed(joined, q, t) == w
  {
    WithoutLast(w[q], t);
  }

  lemma WithoutLast(ts: seq<Tid>, t: Tid)
    requires t !in ts
    ensures Without(ts + [t], t) == ts
  {
    CutIsWithout(ts + [t], t, |ts|);
  }

  /** A woken thread is running, so a second wake would leave its entry alone. */
  lemma WakeUpKeepsWakeable(s: State, t: Tid, u: Tid)
    requires t in s.threads && Wakeable(s, u)
    ensures Wakeable(WakeUpSig(s, t, false), u)
  {
  }

  lemma WakeOneKeepsWakeable(s: State, q: Qid)
    requires WaitersWakeable(s, q)
    ensures WaitersWakeable(WakeOne(s, q), q) && WakeAll(WakeOne(s, q), q) == WakeAll(s, q)
    ensures s.queues[q] != [] ==> |WakeOne(s, q).queues[q]| < |s.queues[q]|
  {
    if s.queues[q] != [] {
      var t := s.queues[q][0];
      var m := s.(queues := s.queues[q := s.queues[q][1..]], woken := s.woken + {t});
      forall i | 0 <= i < |m.queues[q]|
        ensures Wakeable(WakeUpSig(m, t, false), m.queues[q][i])
      {
        StaysWakeable(s, m, s.queues[q][i + 1]);
        WakeUpKeepsWakeable(m, t, m.queues[q][i]);
      }
    }
  }

  lemma ConsumeHeadKeepsWakeable(s: State)
    requires SleepersWakeable(s) && s.sleepers != []
    ensures SleepersWakeable(ConsumeHead(s))
  {
    forall i | 0 <= i < |s.sleepers| - 1
      ensures Wakeable(ConsumeHead(s), s.sleepers[1..][i].thread)
    {
      WakeUpKeepsWakeable(s, s.sleepers[0].thread, s.sleepers[i + 1].thread);
    }
  }

  lemma KeysWithout<V>(m: map<Tid, V>, t: Tid)
    ensures (m - {t}).Keys == m.Keys - {t}
  {
  }

  lemma KeysWith<V>(m: map<Tid, V>, t: Tid, v: V)
    ensures m[t := v].Keys == m.Keys + {t}
  {
  }

  lemma SameKeys<V>(m: map<Tid, V>, t: Tid, v: V)
    requires t in m
    ensures m[t := v].Keys == m.Keys
  {
  }

  /** One turn of ReapAll. */
  ghost function ReapHead(s: State): State
    requires s.reaperList != []
  {
    Reap(s.(reaperList := s.reaperList[1..]), s.reaperList[0])
  }

  lemma ReapKeepsAdmitted(s: State)
    requires Admits(s, ReaperLoop) && s.reaperList != []
    requires s.reaperList[0] !in s.reaperList[1..]
    ensures Admits(ReapHead(s), ReaperLoop)
  {
    forall i | 0 <= i < |s.reaperList| - 1
      ensures Reapable(ReapHead(s), s.reaperList[1..][i])
    {
      assert Reapable(s, s.reaperList[i + 1]) && s.reaperList[i + 1] == s.reaperList[1..][i];
    }
  }

  /** ProcIntReaperAdd of a zombie. */
  ghost function HandedOver(s: State, t: Tid): State
    requires s.reaper in s.threads
  {
    WakeUpSig(s.(reaperList := s.reaperList + [t]), s.reaper, false)
  }

  lemma HandingOverKeepsWakeable(s: State, t: Tid)
    requires Wakeable(s, s.reaper) && t != s.reaper
    ensures Wakeable(s.(reaperList := s.reaperList + [t]), s.reaper)
  {
  }

  lemma DyingKeepsWakeable(s: State)
    requires Off(s, s.current) && Wakeable(s, s.reaper) && s.current != s.reaper
    ensures
      var dead := WithThread(s, s.current, Thread(Zombie, false, Nowhere));
      Off(dead, s.current) && Wakeable(dead, s.reaper)
  {
  }

  ghost function Clocked(s: State, ticks: nat): State {
    s.(time := s.time + ticks)
  }

  lemma TickDrains(s: State, ticks: nat)
    requires Shaped(s)
    ensures StayStep(s, Tick(ticks)) == Drain(Clocked(s, ticks))
  {
  }

  class Kernel {
    const lists: SchedLists
    const queues: WaitQueues
    var threads: map<Tid, Thread>
    var current: Tid
    const idle: Tid
    const reaper: Tid
    var sleepQueue: seq<Entry>
    var currentTime: nat
    ghost var woken: set<Tid>
    var tickets: nat
    var nextEntry: nat
    ghost var freed: seq<nat>
    ghost var reaped: seq<Tid>

    /** The booted kernel: the idle thread runs, the reaper is created, the lists are empty. */
    constructor (lists: SchedLists, queues: WaitQueues, idle: Tid, reaper: Tid, time: nat)
      requires idle != reaper && lists.Shape() == Intact && queues.Shape() == Intact && lists.nodes !! queues.nodes
      requires lists.entries.Keys == {idle, reaper} && queues.entries.Keys == {idle, reaper}
      requires lists.run == lists.reaping == [] && forall q :: q in queues.waiting ==> queues.waiting[q] == []
      ensures this.lists == lists && this.queues == queues && Shape() == Intact && Inv(View())
    {
      var created := Thread(Startup, false, Nowhere);
      BootHolds(idle, reaper, queues.waiting, time);
      this.lists, this.queues, this.idle, this.reaper, current := lists, queues, idle, reaper, idle;
      threads, sleepQueue, currentTime := map[idle := created, reaper := created], [], time;
      woken, tickets, nextEntry, freed, reaped := {}, 0, 0, [], [];
    }

    ghost function View(): State
      reads this, lists, queues
    {
      State(threads, lists.run, current, idle, reaper, queues.waiting, sleepQueue, currentTime, lists.reaping,
            woken, tickets, nextEntry, freed, reaped)
    }

    /** Every thread has its entries, and there are no others. */
    ghost function Roster(): Condition
      reads this`threads, lists`entries, queues`entries
    {
      if threads.Keys == lists.entries.Keys && threads.Keys == queues.entries.Keys then Intact else Broken
    }

    /** Both sides of the kernel's lists are intact and apart. */
    ghost function Sides(): Condition
      reads lists, lists.nodes, queues, queues.nodes
    {
      if lists.Shape() == Intact && queues.Shape() == Intact && lists.nodes !! queues.nodes then Intact else Broken
    }

    /** The rings are intact, and each thread has its two entries. */
    ghost function Shape(): Condition
      reads this, lists, lists.nodes, queues, queues.nodes
    {
      if Sides() == Intact && Roster() == Intact then Intact else Broken
    }

    /** However the rings came about, a thread is on at most one list by each of its entries, and once. */
    lemma OnOneRing(t: Tid, p: Qid, q: Qid)
      requires Shape() == Intact
      ensures !(t in View().runQueue && t in View().reaperList)
      ensures p in View().queues && q in View().queues && t in View().queues[p] && t in View().queues[q] ==> p == q
      ensures forall i, j :: 0 <= i < j < |View().runQueue| ==> View().runQueue[i] != View().runQueue[j]
    {
      lists.OnOneListOnce(t);
      if p in queues.waiting && q in queues.waiting && t in queues.waiting[p] && t in queues.waiting[q] {
        queues.OnOneQueue(t, p, q);
      }
    }

    // ----- one update at a time -----

    method SetThread(t: Tid, th: Thread)
      requires Shape() == Intact && t in threads
      modifies this`threads
      ensures Shape() == Intact && View() == WithThread(old(View()), t, th)
    {
      SameKeys(threads, t, th);
      threads := threads[t := th];
    }

    method SetCurrent(t: Tid)
      requires Shape() == Intact
      modifies this`current
      ensures Shape() == Intact && View() == old(View()).(current := t)
    {
      current := t;
    }

    ghost method NoteWoken(ts: set<Tid>)
      requires Shape() == Intact
      modifies this`woken
      ensures Shape() == Intact && View() == old(View()).(woken := ts)
    {
      woken := ts;
    }

    method NextTicket() returns (n: nat)
      requires Shape() == Intact
      modifies this`tickets
      ensures Shape() == Intact && n == old(tickets) && View() == old(View()).(tickets := n + 1)
    {
      n := tickets;
      tickets := tickets + 1;
    }

    method Enqueue(t: Tid)
      requires Shape() == Intact && Off(View(), t)
      modifies lists, lists.nodes
      ensures Shape() == Intact
      ensures View() == old(View()).(runQueue := old(View()).runQueue + [t])
    {
      lists.PushRun(t);
    }

    method Dequeue() returns (t: Option<Tid>)
      requires Shape() == Intact
      modifies lists, lists.nodes
      ensures Shape() == Intact
      ensures old(View()).runQueue == [] ==> t == None && View() == old(View())
      ensures old(View()).runQueue != [] ==>
        t == Some(old(View()).runQueue[0]) && View() == old(View()).(runQueue := old(View()).runQueue[1..])
    {
      t := lists.PopRun();
    }

    method ClearEntry(t: Tid)
      requires Shape() == Intact && Off(View(), t)
      modifies lists, lists.nodes
      ensures Shape() == Intact && View() == old(View())
    {
      lists.ClearEntry(t);
    }

    method HandToReaper(t: Tid)
      requires Shape() == Intact && Off(View(), t)
      modifies lists, lists.nodes
      ensures Shape() == Intact
      ensures View() == old(View()).(reaperList := old(View()).reaperList + [t])
    {
      lists.PushReaping(t);
    }

    method NextToReap() returns (t: Option<Tid>)
      requires Shape() == Intact
      modifies lists, lists.nodes
      ensures Shape() == Intact
      ensures old(View()).reaperList == [] ==> t == None && View() == old(View())
      ensures old(View()).reaperList != [] ==>
        t == Some(old(View()).reaperList[0]) && View() == old(View()).(reaperList := old(View()).reaperList[1..])
    {
      t := lists.PopReaping();
    }

    /** ListHeadAddLast of the current thread's wait entry. */
    method LinkWaiter(q: Qid)
      requires Sides() == Intact && current in queues.entries && q in queues.heads && !queues.OnQueue(current)
      modifies queues, queues.nodes
      ensures Sides() == Intact && queues.entries == old(queues.entries)
      ensures q in old(queues.waiting)
      ensures queues.waiting == old(queues.waiting)[q := old(queues.waiting)[q] + [current]]
    {
      queues.Join(q, current);
    }

    method JoinQueue(q: Qid)
      requires Shape() == Intact && current in threads && q in queues.heads && !queues.OnQueue(current)
      modifies queues, queues.nodes
      ensures Shape() == Intact && q in old(View()).queues
      ensures View() == old(View()).(queues := old(View()).queues[q := old(View()).queues[q] + [current]])
    {
      LinkWaiter(q);
    }

    method UnlinkWaiter(ghost q: Qid)
      requires Sides() == Intact && current in queues.entries
      requires queues.OnQueue(current) ==> q in queues.waiting && current in queues.waiting[q]
      modifies queues, queues.nodes
      ensures Sides() == Intact && queues.entries == old(queues.entries)
      ensures queues.waiting == Departed(old(queues.waiting), q, current)
    {
      queues.Leave(current, q);
    }

    /** The tail of ProcWaitQueueWait: ListEmpty on the thread's own entry decides. */
    method LeaveQueue(ghost q: Qid)
      requires Shape() == Intact && current in threads
      requires queues.OnQueue(current) ==> q in queues.waiting && current in queues.waiting[q]
      modifies queues, queues.nodes
      ensures Shape() == Intact && View() == old(View()).(queues := Departed(old(View()).queues, q, current))
    {
      UnlinkWaiter(q);
    }

    method TakeWaiter(q: Qid) returns (t: Option<Tid>)
      requires Shape() == Intact && q in View().queues
      modifies queues, queues.nodes
      ensures Shape() == Intact
      ensures old(View()).queues[q] == [] ==> t == None && View() == old(View())
      ensures old(View()).queues[q] != [] ==>
        && t == Some(old(View()).queues[q][0])
        && View() == old(View()).(queues := old(View()).queues[q := old(View()).queues[q][1..]])
    {
      t := queues.Pop(q);
    }

    // ----- scheduler.c -----

    method ProcDoSchedule()
      requires Shape() == Intact
      modifies this`current, lists, lists.nodes
      ensures Shape() == Intact && View() == DoSchedule(old(View()))
    {
      var t := Dequeue();
      SetCurrent(if t.None? then idle else t.value);
    }

    method ProcYield()
      requires Shape() == Intact && Admits(View(), YieldOp)
      modifies this`threads, this`current, lists, lists.nodes
      ensures Shape() == Intact && View() == Yield(old(View()))
    {
      SetThread(current, threads[current].(interrupted := false));
      ClearEntry(current);
      var other := lists.FirstRunnable();
      if other.Some? {
        Enqueue(current);
        ProcDoSchedule();
      }
    }

    /** ProcYieldBlock once it is clear that it blocks. */
    method Block(interruptible: bool, at: Place)
      requires Shape() == Intact && Off(View(), current)
      modifies this`threads, this`current, lists, lists.nodes
      ensures Shape() == Intact && View() == BlockAt(old(View()), interruptible, at)
    {
      SetThread(current, Blocked(interruptible, at));
      ClearEntry(current);
      ProcDoSchedule();
    }

    /** ProcYieldBlock up to the switch; `blocks` is false when a pending signal makes it return at once. */
    method ProcYieldBlock(interruptible: bool, pending: bool) returns (blocks: bool)
      requires Shape() == Intact && Admits(View(), BlockOp(interruptible, pending))
      modifies this`threads, this`current, lists, lists.nodes
      ensures Shape() == Intact && blocks == !(interruptible && pending)
      ensures View() == if blocks then BlockAt(old(View()), interruptible, InBlock) else old(View())
      ensures blocks ==>
        && old(current) in threads
        && threads[old(current)] == Thread(if interruptible then Intr else Unintr, false, InBlock)
    {
      blocks := !(interruptible && pending);
      if blocks {
        Block(interruptible, InBlock);
      }
    }

    method ProcWakeUpSig(t: Tid, isSignal: bool)
      requires Shape() == Intact && Wakeable(View(), t)
      modifies this`threads, lists, lists.nodes
      ensures Shape() == Intact && View() == WakeUpSig(old(View()), t, isSignal)
    {
      var interrupted := false;
      match threads[t].state {
        case Startup =>
        case Running =>
          if !isSignal {
            SetThread(t, threads[t].(interrupted := false));
          }
          return;
        case Intr =>
          interrupted := isSignal;
        case Unintr =>
          if isSignal {
            return;
          }
        case Zombie =>
          return;
      }
      SetThread(t, Thread(Running, interrupted, threads[t].at));
      Enqueue(t);
    }

    // ----- waitqueue.c -----

    /** ProcWaitQueueWait up to the switch: a pending signal takes the thread off the queue again. */
    method ProcWaitQueueWait(q: Qid, interruptible: bool, pending: bool) returns (blocks: bool)
      requires Shape() == Intact && Admits(View(), WaitOp(q, interruptible, pending))
      modifies this, lists, lists.nodes, queues, queues.nodes
      ensures Shape() == Intact && blocks == !(interruptible && pending)
      ensures View() == Wait(old(View()), q, interruptible, pending)
      ensures blocks ==>
        && old(current) in threads && threads[old(current)].state == (if interruptible then Intr else Unintr)
        && threads[old(current)].at.InWait? && threads[old(current)].at.queue == q
    {
      if interruptible && pending {
        Revolve(q);
        return false;
      }
      var ticket := Queue(q);
      Block(interruptible, InWait(q, ticket));
      return true;
    }

    /** What ProcWaitQueueWait does when ProcYieldBlock returns at once. */
    method Revolve(q: Qid)
      requires Shape() == Intact && current in threads && q in queues.heads && !queues.OnQueue(current)
      modifies queues, queues.nodes
      ensures Shape() == Intact && View() == old(View())
    {
      JoinThenLeave(queues.waiting, q, current);
      JoinQueue(q);
      LeaveQueue(q);
    }

    /** What ProcWaitQueueWait does before it blocks. */
    method Queue(q: Qid) returns (ticket: nat)
      requires Shape() == Intact && current in threads && q in queues.heads && !queues.OnQueue(current)
      modifies this`woken, this`tickets, queues, queues.nodes
      ensures Shape() == Intact && ticket == old(tickets) && View() == Joined(old(View()), q)
    {
      JoinQueue(q);
      NoteWoken(woken - {current});
      ticket := NextTicket();
    }

    method ProcWaitQueueWakeOne(q: Qid) returns (any: bool)
      requires Shape() == Intact && q in View().queues && Admits(View(), WakeOneOp(q))
      modifies this, lists, lists.nodes, queues, queues.nodes
      ensures Shape() == Intact && View() == WakeOne(old(View()), q) && (any <==> old(queues.waiting)[q] != [])
    {
      ghost var s := View();
      var t := TakeWaiter(q);
      if t.None? {
        return false;
      }
      NoteWoken(woken + {t.value});
      StaysWakeable(s, View(), t.value);
      ProcWakeUpSig(t.value, false);
      return true;
    }

    /**
     The safe iteration over the waiters, written as taking the first until there is none: waking a
     thread leaves the queue alone, so the entry the iterator saved is the one that is then first.
     */
    method ProcWaitQueueWakeAll(q: Qid)
      requires Shape() == Intact && q in View().queues && Admits(View(), WakeAllOp(q))
      modifies this, lists, lists.nodes, queues, queues.nodes
      ensures Shape() == Intact && WaitersExist(old(View()), q) && View() == WakeAll(old(View()), q)
    {
      ghost var s := View();
      var any := true;
      while any
        invariant Shape() == Intact && q in View().queues && WaitersWakeable(View(), q)
        invariant WakeAll(View(), q) == WakeAll(s, q) && (any || View().queues[q] == [])
        decreases |View().queues[q]|, any
      {
        WakeOneKeepsWakeable(View(), q);
        any := ProcWaitQueueWakeOne(q);
      }
    }

    // ----- timer.c -----

    /** AddTimerToQueue: walks to the first entry that ends earlier. */
    method AddTimerToQueue(e: Entry)
      modifies this`sleepQueue
      ensures sleepQueue == InsertEntry(old(sleepQueue), e)
    {
      var i := 0;
      while i < |sleepQueue| && e.endTime <= sleepQueue[i].endTime
        invariant 0 <= i <= |sleepQueue| && sleepQueue == old(sleepQueue)
        invariant InsertEntry(sleepQueue, e) == sleepQueue[..i] + InsertEntry(sleepQueue[i..], e)
      {
        assert sleepQueue[i..][0] == sleepQueue[i] && sleepQueue[i..][1..] == sleepQueue[i + 1..];
        assert sleepQueue[..i + 1] == sleepQueue[..i] + [sleepQueue[i]];
        i := i + 1;
      }
      assert i < |sleepQueue| ==> sleepQueue[i..][0] == sleepQueue[i];
      sleepQueue := sleepQueue[..i] + [e] + sleepQueue[i..];
    }

    method SetSleepers(sleepers: seq<Entry>, id: nat)
      requires Shape() == Intact
      modifies this`sleepQueue, this`freed
      ensures Shape() == Intact && View() == old(View()).(sleepers := sleepers, freed := old(View()).freed + [id])
    {
      sleepQueue, freed := sleepers, freed + [id];
    }

    method NewSleeper(duration: nat)
      requires Shape() == Intact
      modifies this`sleepQueue, this`nextEntry
      ensures Shape() == Intact && View() == Dozing(old(View()), duration)
    {
      AddTimerToQueue(Entry(nextEntry, current, currentTime + duration));
      nextEntry := nextEntry + 1;
    }

    /** The entry of a sleep that a pending signal ends at once. */
    method RefuseSleep()
      requires Shape() == Intact
      modifies this`nextEntry, this`freed
      ensures Shape() == Intact
      ensures View() == old(View()).(nextEntry := old(nextEntry) + 1, freed := old(freed) + [old(nextEntry)])
    {
      freed := freed + [nextEntry];
      nextEntry := nextEntry + 1;
    }

    /** TimerSleep up to the switch. */
    method TimerSleep(duration: nat, pending: bool) returns (blocks: bool)
      requires Shape() == Intact && Admits(View(), SleepOp(duration, pending))
      modifies this, lists, lists.nodes
      ensures Shape() == Intact && blocks == !pending && View() == Sleep(old(View()), duration, pending)
    {
      blocks := !pending;
      if pending {
        RefuseSleep();
      } else {
        var id := nextEntry;
        NewSleeper(duration);
        Block(true, InSleep(id));
      }
    }

    /** One turn of the timer interrupt's loop. */
    method WakeFirstSleeper()
      requires Shape() == Intact && sleepQueue != [] && Wakeable(View(), sleepQueue[0].thread)
      modifies this`threads, this`sleepQueue, this`freed, lists, lists.nodes
      ensures Shape() == Intact && View() == ConsumeHead(old(View()))
    {
      var e := sleepQueue[0];
      ProcWakeUpSig(e.thread, false);
      SetSleepers(sleepQueue[1..], e.id);
    }

    method AdvanceClock(ticks: nat)
      requires Shape() == Intact
      modifies this`currentTime
      ensures Shape() == Intact && View() == Clocked(old(View()), ticks)
    {
      currentTime := currentTime + ticks;
    }

    /** The sleep-queue part of TimerInterrupt. */
    method TimerInterrupt(ticks: nat)
      requires Shape() == Intact && Admits(View(), Tick(ticks))
      modifies this, lists, lists.nodes
      ensures Shape() == Intact && SleepersExist(old(View()))
      ensures View() == Drain(Clocked(old(View()), ticks))
    {
      AdvanceClock(ticks);
      ghost var s := View();
      while sleepQueue != [] && currentTime >= sleepQueue[0].endTime
        invariant Shape() == Intact && SleepersWakeable(View()) && Drain(View()) == Drain(s)
        decreases |sleepQueue|
      {
        ConsumeHeadKeepsWakeable(View());
        WakeFirstSleeper();
      }
    }

    // ----- resuming -----

    /** A blocked operation runs on: the tails of ProcWaitQueueWait and TimerSleep. */
    method RunOn() returns (interrupted: bool)
      requires Shape() == Intact && Admits(View(), FinishOp)
      modifies this, queues, queues.nodes
      ensures Shape() == Intact && View() == Finish(old(View()))
      ensures interrupted == old(threads[current].interrupted)
    {
      var th := threads[current];
      interrupted := th.interrupted;
      SetThread(current, th.(at := Nowhere));
      match th.at {
        case InWait(q, _) =>
          LeaveQueue(q);
        case InSleep(id) =>
          if interrupted {
            SetSleepers(WithoutEntry(sleepQueue, id), id);
          }
        case _ =>
      }
    }

    // ----- reaper.c and process.c -----

    method DropEntries(t: Tid)
      requires Sides() == Intact && Reapable(View(), t) && t !in View().reaperList
      modifies lists`entries, queues`entries
      ensures Sides() == Intact && View() == old(View())
      ensures lists.entries == old(lists.entries) - {t} && queues.entries == old(queues.entries) - {t}
    {
      lists.Discharge(t);
      queues.Discharge(t);
    }

    method ForgetThread(t: Tid)
      requires Sides() == Intact
      requires lists.entries.Keys == threads.Keys - {t} && queues.entries.Keys == threads.Keys - {t}
      modifies this`threads, this`reaped
      ensures Shape() == Intact && View() == Reap(old(View()), t)
    {
      KeysWithout(threads, t);
      threads, reaped := threads - {t}, reaped + [t];
    }

    /** ProcIntReapThread: the thread's memory goes, its entries with it. */
    method ReapThread(t: Tid)
      requires Shape() == Intact && Reapable(View(), t) && t !in View().reaperList
      modifies this`threads, this`reaped, lists`entries, queues`entries
      ensures Shape() == Intact && View() == Reap(old(View()), t)
    {
      KeysWithout(lists.entries, t);
      KeysWithout(queues.entries, t);
      DropEntries(t);
      ForgetThread(t);
    }

    lemma NoneTwiceToReap()
      requires Shape() == Intact
      ensures View().reaperList != [] ==> View().reaperList[0] !in View().reaperList[1..]
    {
      lists.OnOneListOnce(0);
    }

    /** One turn of the reaper's loop: ListEmpty, or the first thread is unlinked and reaped. */
    method ReapFirst() returns (any: bool)
      requires Shape() == Intact && (View().reaperList != [] ==> Reapable(View(), View().reaperList[0]))
      modifies this`threads, this`reaped, lists, lists.nodes, queues`entries
      ensures Shape() == Intact && (any <==> old(View()).reaperList != [])
      ensures View() == if any then ReapHead(old(View())) else old(View())
    {
      NoneTwiceToReap();
      var t := NextToReap();
      if t.None? {
        return false;
      }
      ReapThread(t.value);
      return true;
    }

    /** The reaper thread: drains its list, then blocks. */
    method ReaperThread()
      requires Shape() == Intact && Admits(View(), ReaperLoop)
      modifies this, lists, lists.nodes, queues`entries
      ensures Shape() == Intact && View() == BlockAt(ReapAll(old(View())), false, InBlock)
    {
      ghost var s := View();
      var any := true;
      while any
        invariant Shape() == Intact && Admits(View(), ReaperLoop)
        invariant ReapAll(View()) == ReapAll(s) && (any || View().reaperList == [])
        decreases |View().reaperList|, any
      {
        if View().reaperList != [] {
          NoneTwiceToReap();
          ReapKeepsAdmitted(View());
        }
        any := ReapFirst();
      }
      Block(false, InBlock);
    }

    /**
     ProcIntReaperAdd: a zombie goes on the reaper's list by the entry that served the run queue; any
     other thread is refused.
     */
    method ProcIntReaperAdd(t: Tid)
      requires Shape() == Intact && t in threads && Wakeable(View(), reaper)
      requires threads[t].state == Zombie ==> Off(View(), t) && t != reaper
      modifies this`threads, lists, lists.nodes
      ensures Shape() == Intact
      ensures old(threads[t]).state != Zombie ==> View() == old(View())
      ensures old(threads[t]).state == Zombie ==> View() == HandedOver(old(View()), t)
    {
      if threads[t].state != Zombie {
        return;
      }
      HandingOverKeepsWakeable(View(), t);
      HandToReaper(t);
      ProcWakeUpSig(reaper, false);
    }

    /** The exit path of a thread, with ProcIntReaperAdd when no one will wait for it. */
    method ProcExit(autoReap: bool)
      requires Shape() == Intact && Admits(View(), ExitOp(autoReap))
      modifies this, lists, lists.nodes
      ensures Shape() == Intact && View() == Exit(old(View()), autoReap)
    {
      DyingKeepsWakeable(View());
      SetThread(current, Thread(Zombie, false, Nowhere));
      if autoReap {
        ProcIntReaperAdd(current);
      }
      ProcDoSchedule();
    }

    method TakeEntries(t: Tid, e: ListHead, w: ListHead)
      requires Sides() == Intact && t !in lists.entries && t !in queues.entries && lists.Unused(e) && queues.Unused(w)
      modifies lists`entries, queues`entries, e, w
      ensures Sides() == Intact && View() == old(View())
      ensures lists.entries == old(lists.entries)[t := e] && queues.entries == old(queues.entries)[t := w]
    {
      lists.Enrol(t, e);
      queues.Enrol(t, w);
    }

    method EnterThread(t: Tid)
      requires Sides() == Intact
      requires lists.entries.Keys == threads.Keys + {t} && queues.entries.Keys == threads.Keys + {t}
      modifies this`threads
      ensures Shape() == Intact && View() == WithThread(old(View()), t, Thread(Startup, false, Nowhere))
    {
      KeysWith(threads, t, Thread(Startup, false, Nowhere));
      threads := threads[t := Thread(Startup, false, Nowhere)];
    }

    /** A new thread, made in memory no other thread uses. */
    method ProcCreateThread(t: Tid, e: ListHead, w: ListHead)
      requires Shape() == Intact && Admits(View(), Spawn(t)) && lists.Unused(e) && queues.Unused(w)
      modifies this`threads, lists`entries, queues`entries, e, w
      ensures Shape() == Intact && View() == WithThread(old(View()), t, Thread(Startup, false, Nowhere))
    {
      KeysWith(lists.entries, t, e);
      KeysWith(queues.entries, t, w);
      TakeEntries(t, e, w);
      EnterThread(t);
    }

    method TimerSetTime(time: nat)
      requires Shape() == Intact
      modifies this`currentTime
      ensures Shape() == Intact && View() == old(View()).(time := time)
    {
      currentTime := time;
    }

    // ----- every step -----

    method Depart(op: Op)
      requires Shape() == Intact && Shaped(View()) && Enabled(View(), op) && Admits(View(), op) && Yielding(op)
      modifies this, lists, lists.nodes, queues, queues.nodes
      ensures Shape() == Intact && View() == YieldStep(old(View()), op)
    {
      match op {
        case YieldOp => ProcYield();
        case WaitOp(q, interruptible, pending) => var _ := ProcWaitQueueWait(q, interruptible, pending);
        case BlockOp(interruptible, pending) => var _ := ProcYieldBlock(interruptible, pending);
        case SleepOp(duration, pending) => var _ := TimerSleep(duration, pending);
        case IdleLoop => ProcDoSchedule();
        case ExitOp(autoReap) => ProcExit(autoReap);
        case ReaperLoop => ReaperThread();
      }
    }

    lemma QueuesHaveHeads()
      requires Shape() == Intact
      ensures queues.heads.Keys == View().queues.Keys
    {
    }

    method WakeOneIfAny(q: Qid)
      requires Shape() == Intact && Admits(View(), WakeOneOp(q))
      modifies this, lists, lists.nodes, queues, queues.nodes
      ensures Shape() == Intact && View() == WakeOne(old(View()), q)
    {
      QueuesHaveHeads();
      if q in queues.heads {
        var _ := ProcWaitQueueWakeOne(q);
      }
    }

    method WakeAllIfAny(q: Qid)
      requires Shape() == Intact && Admits(View(), WakeAllOp(q))
      modifies this, lists, lists.nodes, queues, queues.nodes
      ensures Shape() == Intact && WaitersExist(old(View()), q) && View() == WakeAll(old(View()), q)
    {
      QueuesHaveHeads();
      if q in queues.heads {
        ProcWaitQueueWakeAll(q);
      }
    }

    method WakeSome(op: Op)
      requires Shape() == Intact && Shaped(View()) && Enabled(View(), op) && Admits(View(), op) && Waking(op)
      modifies this, lists, lists.nodes, queues, queues.nodes
      ensures Shape() == Intact && View() == StayStep(old(View()), op)
    {
      match op {
        case Start(t) => ProcWakeUpSig(t, false);
        case Signal(t) => ProcWakeUpSig(t, true);
        case WakeOneOp(q) => WakeOneIfAny(q);
        case WakeAllOp(q) => WakeAllIfAny(q);
        case Tick(ticks) =>
          TickDrains(View(), ticks);
          TimerInterrupt(ticks);
      }
    }

    method Stay(op: Op, e: ListHead, w: ListHead)
      requires Shape() == Intact && Shaped(View()) && Enabled(View(), op) && Admits(View(), op)
      requires !Yielding(op) && !Waking(op) && (op.Spawn? ==> lists.Unused(e) && queues.Unused(w))
      modifies this, lists, lists.nodes, queues, queues.nodes
      ensures Shape() == Intact && View() == StayStep(old(View()), op)
    {
      match op {
        case Spawn(t) => ProcCreateThread(t, e, w);
        case FinishOp => var _ := RunOn();
        case SetTime(time) => TimerSetTime(time);
        case ReapZombie(t) => ReapThread(t);
      }
    }

    /** Whatever step is enabled, the code carries it out on the rings and leaves them intact. */
    method Perform(op: Op, e: ListHead, w: ListHead)
      requires Shape() == Intact && Inv(View()) && Enabled(View(), op)
      requires op.Spawn? ==> lists.Unused(e) && queues.Unused(w)
      modifies this, lists, lists.nodes, queues, queues.nodes
      ensures Shape() == Intact && Inv(View()) && Leads(old(View()), op, View())
    {
      InvIsShaped(View());
      InvAdmits(View(), op);
      StepKeepsInv(View(), op);
      if Yielding(op) {
        Depart(op);
      } else if Waking(op) {
        WakeSome(op);
      } else {
        Stay(op, e, w);
      }
    }
  }
}
