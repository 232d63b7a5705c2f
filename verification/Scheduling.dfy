/**
 Threads, wait queues, sleeping and reaping: kernel/src/process/scheduler.c,
 kernel/src/process/waitqueue.c, kernel/src/timer.c and kernel/src/process/reaper.c.

 Kernel code runs with interrupts off, so each step runs from one blocking point to the next. A
 thread that blocks resumes where it left off when it is scheduled again (the Finish step). Whether a
 signal is pending when a thread blocks is a parameter of the step.
 */
module Scheduling {
  type Tid = nat
  type Qid = nat

  datatype ThreadState = Startup | Running | Intr | Unintr | Zombie

  /** Where a thread's kernel code is suspended. The ticket numbers the wait among all waits. */
  datatype Place = Nowhere | InWait(queue: Qid, ticket: nat) | InSleep(entry: nat) | InBlock

  datatype Thread = Thread(state: ThreadState, interrupted: bool, at: Place)

  /** A sleep queue entry. */
  datatype Entry = Entry(id: nat, thread: Tid, endTime: nat)

  /**
   `woken` holds the threads a WakeOne or WakeAll has removed from a queue since they began to wait;
   `tickets` and `nextEntry` count waits and sleep entries; `freed` and `reaped` list what has been
   given back to the allocator.
   */
  datatype State = State(
    threads: map<Tid, Thread>,
    runQueue: seq<Tid>,
    current: Tid,
    idle: Tid,
    reaper: Tid,
    queues: map<Qid, seq<Tid>>,
    sleepers: seq<Entry>,
    time: nat,
    reaperList: seq<Tid>,
    woken: set<Tid>,
    tickets: nat,
    nextEntry: nat,
    freed: seq<nat>,
    reaped: seq<Tid>)

  // ---------------------------------------------------------------- the scheduler

  /** ProcDoSchedule: the oldest runnable thread, or the idle thread. */
  function DoSchedule(s: State): State {
    if s.runQueue == [] then s.(current := s.idle)
    else s.(current := s.runQueue[0], runQueue := s.runQueue[1..])
  }

  function WithThread(s: State, t: Tid, th: Thread): State {
    s.(threads := s.threads[t := th])
  }

  /** ProcWakeUpSig. */
  function WakeUpSig(s: State, t: Tid, isSignal: bool): State
    requires t in s.threads
  {
    var th := s.threads[t];
    match th.state
    case Running => if isSignal then s else WithThread(s, t, th.(interrupted := false))
    case Zombie => s
    case Unintr =>
      if isSignal then s
      else WithThread(s, t, Thread(Running, false, th.at)).(runQueue := s.runQueue + [t])
    case Intr => WithThread(s, t, Thread(Running, isSignal, th.at)).(runQueue := s.runQueue + [t])
    case Startup => WithThread(s, t, Thread(Running, false, th.at)).(runQueue := s.runQueue + [t])
  }

  /** ProcYield. */
  function Yield(s: State): State
    requires s.current in s.threads
  {
    var cleared := WithThread(s, s.current, s.threads[s.current].(interrupted := false));
    if s.runQueue == [] then cleared else DoSchedule(cleared.(runQueue := s.runQueue + [s.current]))
  }

  function Blocked(interruptible: bool, at: Place): Thread {
    Thread(if interruptible then Intr else Unintr, false, at)
  }

  /** The blocking half of ProcYieldBlock; no signal was pending. */
  function BlockAt(s: State, interruptible: bool, at: Place): State {
    DoSchedule(WithThread(s, s.current, Blocked(interruptible, at)))
  }

  // ---------------------------------------------------------------- wait queues

  /** The current thread at the end of a queue. */
  function Joined(s: State, q: Qid): State
    requires q in s.queues
  {
    s.(queues := s.queues[q := s.queues[q] + [s.current]], woken := s.woken - {s.current}, tickets := s.tickets + 1)
  }

  /** ProcWaitQueueWait up to the block. A pending signal takes the thread straight off the queue again. */
  function Wait(s: State, q: Qid, interruptible: bool, pending: bool): State
    requires q in s.queues
  {
    if interruptible && pending then s else BlockAt(Joined(s, q), interruptible, InWait(q, s.tickets))
  }

  /** ProcWaitQueueWakeOne. */
  function WakeOne(s: State, q: Qid): State
    requires q in s.queues && s.queues[q] != [] ==> s.queues[q][0] in s.threads
  {
    if q !in s.queues || s.queues[q] == [] then s
    else
      var t := s.queues[q][0];
      WakeUpSig(s.(queues := s.queues[q := s.queues[q][1..]], woken := s.woken + {t}), t, false)
  }

  ghost predicate WaitersExist(s: State, q: Qid) {
    q in s.queues ==> forall i :: 0 <= i < |s.queues[q]| ==> s.queues[q][i] in s.threads
  }

  /** ProcWaitQueueWakeAll: the safe iteration takes the threads off one by one from the front. */
  ghost function WakeAll(s: State, q: Qid): State
    requires WaitersExist(s, q)
    decreases if q in s.queues then |s.queues[q]| else 0
  {
    if q !in s.queues || s.queues[q] == [] then s else WakeAll(WakeOne(s, q), q)
  }

  // ---------------------------------------------------------------- sleeping

  /** AddTimerToQueue: before the first entry that ends earlier, so latest first. */
  function InsertEntry(sleepers: seq<Entry>, e: Entry): seq<Entry> {
    if sleepers == [] then [e]
    else if e.endTime > sleepers[0].endTime then [e] + sleepers
    else [sleepers[0]] + InsertEntry(sleepers[1..], e)
  }

  /** The sleep queue with the current thread's new entry. */
  function Dozing(s: State, duration: nat): State {
    s.(sleepers := InsertEntry(s.sleepers, Entry(s.nextEntry, s.current, s.time + duration)),
       nextEntry := s.nextEntry + 1)
  }

  /** TimerSleep up to the block. A pending signal takes the entry straight out again and frees it. */
  function Sleep(s: State, duration: nat, pending: bool): State {
    if pending then s.(nextEntry := s.nextEntry + 1, freed := s.freed + [s.nextEntry])
    else BlockAt(Dozing(s, duration), true, InSleep(s.nextEntry))
  }

  /** One turn of the timer interrupt's loop: the first sleeper is woken, unlinked and freed. */
  function ConsumeHead(s: State): State
    requires s.sleepers != [] && s.sleepers[0].thread in s.threads
  {
    var woken := WakeUpSig(s, s.sleepers[0].thread, false);
    woken.(sleepers := s.sleepers[1..], freed := s.freed + [s.sleepers[0].id])
  }

  ghost predicate SleepersExist(s: State) {
    forall i :: 0 <= i < |s.sleepers| ==> s.sleepers[i].thread in s.threads
  }

  /** The sleep-queue loop of TimerInterrupt. */
  ghost function Drain(s: State): State
    requires SleepersExist(s)
    decreases |s.sleepers|
  {
    if s.sleepers == [] || s.time < s.sleepers[0].endTime then s else Drain(ConsumeHead(s))
  }

  function WithoutEntry(sleepers: seq<Entry>, id: nat): seq<Entry> {
    if sleepers == [] then []
    else if sleepers[0].id == id then sleepers[1..]
    else [sleepers[0]] + WithoutEntry(sleepers[1..], id)
  }

  function Without(queue: seq<Tid>, t: Tid): seq<Tid> {
    if queue == [] then []
    else if queue[0] == t then queue[1..]
    else [queue[0]] + Without(queue[1..], t)
  }

  lemma {:induction false} WithoutAbsent(queue: seq<Tid>, t: Tid)
    requires t !in queue
    ensures Without(queue, t) == queue
  {
    if queue != [] {
      WithoutAbsent(queue[1..], t);
    }
  }

  /**
   The current thread runs on after its block: ProcWaitQueueWait leaves the queue if it is still on it,
   TimerSleep unlinks and frees its entry if it was interrupted.
   */
  function Finish(s: State): State
    requires s.current in s.threads
  {
    var th := s.threads[s.current];
    var left := WithThread(s, s.current, th.(at := Nowhere));
    match th.at
    case InWait(q, _) =>
      if q in s.queues then left.(queues := s.queues[q := Without(s.queues[q], s.current)]) else left
    case InSleep(id) =>
      if th.interrupted then left.(sleepers := WithoutEntry(s.sleepers, id), freed := s.freed + [id]) else left
    case _ => left
  }

  // ---------------------------------------------------------------- exit and reaping

  /** The exit path: the thread becomes a zombie, goes to the reaper if no one will wait for it, and schedules away. */
  function Exit(s: State, autoReap: bool): State
    requires s.current in s.threads && s.reaper in s.threads
  {
    var dead := WithThread(s, s.current, Thread(Zombie, false, Nowhere));
    if !autoReap then DoSchedule(dead)
    else DoSchedule(WakeUpSig(dead.(reaperList := s.reaperList + [s.current]), s.reaper, false))
  }

  /** ProcIntReapThread of one zombie. */
  function Reap(s: State, t: Tid): State {
    s.(threads := s.threads - {t}, reaped := s.reaped + [t])
  }

  /** The inner loop of the reaper thread. */
  ghost function ReapAll(s: State): State
    decreases |s.reaperList|
  {
    if s.reaperList == [] then s
    else ReapAll(Reap(s.(reaperList := s.reaperList[1..]), s.reaperList[0]))
  }
}
