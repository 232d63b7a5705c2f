/**
 Lazy switching of the floating-point unit: kernel/src/cpu.c, on a machine that has one.

 The TS bit of CR0 makes the next floating-point instruction trap (#NM). The registers belong to
 the owner, if any; every other thread's registers are in its saved area, or have their initial
 values if it has none.
 */
module LazyFpu {
  import opened Common

  type Tid = nat

  /** The control word, the 32-bit MXCSR and the rest of the register file. */
  datatype Regs = Regs(control: nat, mxcsr: nat, rest: seq<nat>)

  const FPU_INIT_CTRL := 0x37F
  const MXCSR_INIT := 0x1F80
  const SWITCH_THRESHOLD := 10

  datatype Cpu = Cpu(fxsave: bool, daz: bool)

  /**
   A zeroed save area with the initial control words filled in. Words 12 and 13 of the area are the two
   halves of MXCSR, so the word the code means for the MXCSR mask ends up in the upper half.
   */
  function Initial(cpu: Cpu): Regs {
    Regs(FPU_INIT_CTRL, if !cpu.fxsave then 0 else MXCSR_INIT + if cpu.daz then 0xFFFF_0000 else 0, [])
  }

  /** A new thread's control words, by machine: the control word, and the two halves of MXCSR. */
  lemma InitialWords(cpu: Cpu)
    ensures
      var regs := Initial(cpu);
      && regs.control == 0x37F && regs.rest == []
      && regs.mxcsr % 0x1_0000 == (if cpu.fxsave then 0x1F80 else 0)
      && regs.mxcsr / 0x1_0000 == (if cpu.fxsave && cpu.daz then 0xFFFF else 0)
  {
  }

  datatype FpuThread = FpuThread(area: Option<Regs>, switches: nat)

  datatype State = State(
    cpu: Cpu, threads: map<Tid, FpuThread>, owner: Option<Tid>, hardware: Regs, ts: bool, current: Tid)

  /** A thread's registers as it would see them. */
  function Logical(s: State, t: Tid): Regs
    requires t in s.threads
  {
    if s.owner == Some(t) then s.hardware
    else if s.threads[t].area.Some? then s.threads[t].area.value
    else Initial(s.cpu)
  }

  /** The owner has a save area, and the registers are open to the current thread exactly if it owns them. */
  ghost predicate Inv(s: State) {
    && s.current in s.threads
    && (s.owner.Some? ==> s.owner.value in s.threads && s.threads[s.owner.value].area.Some?)
    && (!s.ts <==> s.owner == Some(s.current))
  }

  // ---------------------------------------------------------------- the code

  /** The saved areas after the owner's registers have been stored. */
  function Saved(s: State): map<Tid, FpuThread> {
    if s.owner.Some? && s.owner.value in s.threads then
      s.threads[s.owner.value := s.threads[s.owner.value].(area := Some(s.hardware))]
    else s.threads
  }

  /** DoFpuSwitch: save for the owner, load for the current thread, count the switch in eight bits. */
  function FpuSwitch(s: State): State
    requires s.current in s.threads
  {
    var saved := Saved(s);
    var area := if saved[s.current].area.Some? then saved[s.current].area.value else Initial(s.cpu);
    State(s.cpu, saved[s.current := FpuThread(Some(area), (saved[s.current].switches + 1) % 256)],
          Some(s.current), area, s.ts, s.current)
  }

  /** CpuNoFpuException from user mode; None is the SIGFPE of a machine without a unit. */
  function NoFpuException(s: State): Option<State>
    requires s.current in s.threads
  {
    if s.owner == Some(s.current) then None else Some(FpuSwitch(s.(ts := false)))
  }

  /** CpuTaskSwitched, called with the new thread current. */
  function TaskSwitched(s: State): State
    requires s.current in s.threads
  {
    if s.owner == Some(s.current) then s.(ts := false)
    else if s.threads[s.current].switches >= SWITCH_THRESHOLD then FpuSwitch(s.(ts := false))
    else s.(ts := true)
  }

  /** CpuFreeFpuState. */
  function FreeFpuState(s: State, t: Tid): State
    requires t in s.threads
  {
    State(s.cpu, s.threads[t := s.threads[t].(area := None)],
          if s.owner == Some(t) then None else s.owner, s.hardware, s.ts, s.current)
  }

  // ---------------------------------------------------------------- runs

  datatype Op =
    | Create(t: Tid)
    | Switch(t: Tid)
    | Use(regs: Regs)
    | Exit(t: Tid)

  predicate Enabled(s: State, op: Op) {
    match op
    case Create(t) => t !in s.threads
    case Switch(t) => t in s.threads
    case Use(_) => s.current in s.threads
    case Exit(t) => t in s.threads && t != s.current
  }

  /** A floating-point instruction that leaves `regs` in the registers, trapping first if TS is set. */
  function Used(s: State, regs: Regs): Option<State>
    requires s.current in s.threads
  {
    if !s.ts then Some(s.(hardware := regs))
    else match NoFpuException(s)
         case None => None
         case Some(r) => Some(r.(hardware := regs))
  }

  /** None if the step ends in the spurious SIGFPE. */
  function Step(s: State, op: Op): Option<State>
    requires Enabled(s, op)
  {
    match op
    case Create(t) => Some(s.(threads := s.threads[t := FpuThread(None, 0)]))
    case Switch(t) => Some(TaskSwitched(s.(current := t)))
    case Use(regs) => Used(s, regs)
    case Exit(t) =>
      var freed := FreeFpuState(s, t);
      Some(freed.(threads := freed.threads - {t}))
  }

  /** Eager switching: every thread has its own registers, and only its own use changes them. */
  datatype Eager = Eager(cpu: Cpu, regs: map<Tid, Regs>, current: Tid)

  function EagerStep(e: Eager, op: Op): Eager {
    match op
    case Create(t) => e.(regs := e.regs[t := Initial(e.cpu)])
    case Switch(t) => e.(current := t)
    case Use(regs) => e.(regs := e.regs[e.current := regs])
    case Exit(t) => e.(regs := e.regs - {t})
  }

  function Abs(s: State): Eager {
    Eager(s.cpu, map t | t in s.threads :: Logical(s, t), s.current)
  }

  /** Switching the unit changes no thread's registers. */
  lemma FpuSwitchIsInvisible(s: State)
    requires s.current in s.threads && s.owner != Some(s.current)
    requires s.owner.Some? ==> s.owner.value in s.threads
    ensures FpuSwitch(s).threads.Keys == s.threads.Keys
    ensures forall t :: t in s.threads ==> Logical(FpuSwitch(s), t) == Logical(s, t)
    ensures FpuSwitch(s).owner == Some(s.current) && FpuSwitch(s).threads[s.current].area.Some?
  {
  }

  /** Boot leaves TS clear and the unit without an owner; the first task switch puts things in order. */
  lemma FirstSwitchEstablishes(s: State)
    requires s.current in s.threads && s.owner.None?
    ensures Inv(TaskSwitched(s))
  {
  }

  /** Every step keeps the invariant, matches the eager step, and never raises the spurious SIGFPE. */
  lemma StepRefines(s: State, op: Op)
    requires Inv(s) && Enabled(s, op)
    ensures Step(s, op).Some?
    ensures Inv(Step(s, op).value)
    ensures Abs(Step(s, op).value) == EagerStep(Abs(s), op)
  {
    var next := Step(s, op).value;
    match op
    case Create(t) =>
      assert Abs(next).regs == Abs(s).regs[t := Initial(s.cpu)];
    case Switch(t) =>
      SwitchRefines(s, t);
    case Use(regs) =>
      if s.ts {
        FpuSwitchIsInvisible(s.(ts := false));
      }
      assert Abs(next).regs == Abs(s).regs[s.current := regs];
    case Exit(t) =>
      assert Abs(next).regs == Abs(s).regs - {t};
  }

  lemma SwitchRefines(s: State, t: Tid)
    requires Inv(s) && t in s.threads
    ensures var next := TaskSwitched(s.(current := t));
            Inv(next) && Abs(next) == Abs(s).(current := t)
  {
    var m := s.(current := t);
    var next := TaskSwitched(m);
    if m.owner != Some(t) && m.threads[t].switches >= SWITCH_THRESHOLD {
      FpuSwitchIsInvisible(m.(ts := false));
    }
    assert Abs(next).regs == Abs(s).regs;
  }

  ghost predicate Legal(s: State, ops: seq<Op>)
    requires Inv(s)
    decreases |ops|
  {
    ops == [] || (Enabled(s, ops[0]) && (StepRefines(s, ops[0]); Legal(Step(s, ops[0]).value, ops[1..])))
  }

  ghost function Run(s: State, ops: seq<Op>): State
    requires Inv(s) && Legal(s, ops)
    decreases |ops|
  {
    if ops == [] then s else StepRefines(s, ops[0]); Run(Step(s, ops[0]).value, ops[1..])
  }

  function EagerRun(e: Eager, ops: seq<Op>): Eager
    decreases |ops|
  {
    if ops == [] then e else EagerRun(EagerStep(e, ops[0]), ops[1..])
  }

  /** Over any run of creations, switches, uses with their traps, and exits, every thread sees its own registers. */
  lemma {:induction false} RunRefinesEagerSwitching(s: State, ops: seq<Op>)
    requires Inv(s) && Legal(s, ops)
    ensures Inv(Run(s, ops)) && Abs(Run(s, ops)) == EagerRun(Abs(s), ops)
    decreases |ops|
  {
    if ops != [] {
      StepRefines(s, ops[0]);
      RunRefinesEagerSwitching(Step(s, ops[0]).value, ops[1..]);
    }
  }

  // ---------------------------------------------------------------- reaping as it is coded

  /** ProcIntReapThread frees the state of the thread that reaps, not of the thread it reaps. */
  function ReapAsCoded(s: State, t: Tid): State
    requires s.current in s.threads && t in s.threads
  {
    var freed := FreeFpuState(s, s.current);
    freed.(threads := freed.threads - {t})
  }

  /** The unit is left in order exactly if neither the reaped thread nor the reaping one owned it. */
  lemma ReapAsCodedKeepsInvIff(s: State, t: Tid)
    requires Inv(s) && t in s.threads && t != s.current
    ensures Inv(ReapAsCoded(s, t)) <==> s.owner != Some(t) && s.owner != Some(s.current)
  {
  }

  /** The survivors keep their registers exactly if the reaping thread's are still the initial ones. */
  lemma ReapAsCodedKeepsRegistersIff(s: State, t: Tid)
    requires Inv(s) && t in s.threads && t != s.current
    ensures Abs(ReapAsCoded(s, t)).regs == Abs(s).regs - {t} <==> Logical(s, s.current) == Initial(s.cpu)
  {
    var next := ReapAsCoded(s, t);
    assert Logical(next, s.current) == Initial(s.cpu);
    if Logical(s, s.current) == Initial(s.cpu) {
      assert Abs(next).regs == Abs(s).regs - {t};
    } else {
      assert (Abs(s).regs - {t})[s.current] == Logical(s, s.current);
      assert Abs(next).regs[s.current] == Logical(next, s.current);
    }
  }

  /** Thread 0 reaps thread 1 with registers of its own in the unit, and loses them. */
  lemma ReapAsCodedExample() returns (s: State)
    ensures Inv(s) && 1 in s.threads && s.current == 0
    ensures !Inv(ReapAsCoded(s, 1))
    ensures Logical(ReapAsCoded(s, 1), 0) != Logical(s, 0)
  {
    var cpu := Cpu(false, false);
    var own := Regs(FPU_INIT_CTRL, 0, [1]);
    s := State(cpu, map[0 := FpuThread(Some(own), 1), 1 := FpuThread(None, 0)], Some(0), own, false, 0);
    assert Logical(s, 0) == own;
  }

  // ---------------------------------------------------------------- the code on the kernel's variables

  class Unit {
    const cpu: Cpu
    var threads: map<Tid, FpuThread>
    var fpuCurrent: Option<Tid>
    var hardware: Regs
    var ts: bool
    var current: Tid

    ghost function View(): State
      reads this
    {
      State(cpu, threads, fpuCurrent, hardware, ts, current)
    }

    /** fxsave, or fnsave, which also resets the registers. */
    method Save(t: Tid)
      requires t in threads
      modifies this`threads, this`hardware
      ensures threads == old(threads)[t := old(threads[t]).(area := Some(old(hardware)))]
    {
      threads := threads[t := threads[t].(area := Some(hardware))];
      if !cpu.fxsave {
        hardware := Regs(FPU_INIT_CTRL, hardware.mxcsr, []);
      }
    }

    /** fxrstor, or frstor with the default control word followed by fldcw of the real one. */
    method Restore(area: Regs)
      modifies this`hardware
      ensures hardware == area
    {
      if cpu.fxsave {
        hardware := area;
      } else {
        hardware := area.(control := FPU_INIT_CTRL);
        hardware := hardware.(control := area.control);
      }
    }

    method DoFpuSwitch()
      requires current in threads && (fpuCurrent.Some? ==> fpuCurrent.value in threads)
      modifies this
      ensures View() == FpuSwitch(old(View()))
      ensures fpuCurrent == Some(current) && hardware == Logical(View(), current)
      ensures forall t :: t in old(threads) ==>
        t in threads && threads[t].switches ==
          if t == current then (old(threads[t]).switches + 1) % 256 else old(threads[t]).switches
    {
      if fpuCurrent.Some? {
        Save(fpuCurrent.value);
      }
      if threads[current].area.None? {
        threads := threads[current := threads[current].(area := Some(Initial(cpu)))];
      }
      Restore(threads[current].area.value);
      threads := threads[current := threads[current].(switches := (threads[current].switches + 1) % 256)];
      fpuCurrent := Some(current);
    }

    /**
     CpuNoFpuException, with whether SIGFPE is raised: only for a trap the owner of the registers takes.
     No thread's registers change, and afterwards they are open to the current thread.
     */
    method CpuNoFpuException() returns (sigfpe: bool)
      requires current in threads && (fpuCurrent.Some? ==> fpuCurrent.value in threads)
      modifies this
      ensures sigfpe <==> old(fpuCurrent) == Some(current)
      ensures old(Inv(View())) && old(ts) ==> !sigfpe
      ensures Abs(View()) == Abs(old(View()))
      ensures !sigfpe ==> Inv(View()) && !ts && threads[current].switches == (old(threads[current].switches) + 1) % 256
      ensures View() == if sigfpe then old(View()) else NoFpuException(old(View())).value
    {
      ghost var s := View();
      if fpuCurrent != Some(current) {
        ts := false;
        FpuSwitchIsInvisible(View());
        DoFpuSwitch();
        assert Abs(View()).regs == Abs(s).regs;
        return false;
      }
      return true;
    }

    /**
     CpuTaskSwitched: no thread's registers change, and the invariant is set up for the new thread.
     The unit itself is switched only for a thread that has used it often.
     */
    method CpuTaskSwitched()
      requires current in threads && (fpuCurrent.Some? ==> fpuCurrent.value in threads)
      modifies this
      ensures Abs(View()) == Abs(old(View()))
      ensures fpuCurrent ==
        if old(threads[current].switches) >= 10 then Some(current) else old(fpuCurrent)
      ensures (old(fpuCurrent).Some? ==> old(threads[fpuCurrent.value]).area.Some?) ==> Inv(View())
      ensures View() == TaskSwitched(old(View()))
    {
      ghost var s := View();
      ts := false;
      if fpuCurrent != Some(current) {
        if threads[current].switches >= SWITCH_THRESHOLD {
          FpuSwitchIsInvisible(View());
          DoFpuSwitch();
        } else {
          ts := true;
        }
      }
      assert Abs(View()).regs == Abs(s).regs;
    }

    /** CpuFreeFpuState: the thread is back to initial registers, owned by no one; all others keep theirs. */
    method CpuFreeFpuState(t: Tid)
      requires t in threads
      modifies this
      ensures Abs(View()) == Abs(old(View())).(regs := Abs(old(View())).regs[t := Initial(cpu)])
      ensures fpuCurrent != Some(t)
      ensures old(Inv(View())) && t != current ==> Inv(View())
      ensures View() == FreeFpuState(old(View()), t)
    {
      ghost var s := View();
      if fpuCurrent == Some(t) {
        fpuCurrent := None;
      }
      threads := threads[t := threads[t].(area := None)];
      assert Abs(View()).regs == Abs(s).regs[t := Initial(cpu)];
    }
  }
}
