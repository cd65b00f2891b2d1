/** Two runs of the kernel to the tick and to the register: two busy processes, and the first steps after boot. */
module Turns {
  import opened Words
  import T = Timers
  import opened Processes
  import opened Kernel
  import opened KernelInvariant
  import opened Delivery
  import opened SchedulerLaws
  import opened HandlerLaws
  import F = Fairness

  // ---------------------------------------------------------------- two busy processes

  /** The two processes n ticks on, before the first has lost the processor. */
  ghost predicate TwoBusy(k: Kernel, n: nat) {
    && Inv(k) && k.enabled && k.canUpdate && k.updates == 0 && k.timers.slots == [] && |k.procs| == 3
    && k.procs[1].status.Running? && k.procs[1].runningTime == 10 * n && k.procs[1].fixed.priority == 0
    && k.procs[2].status.Normal? && k.procs[2].started && k.procs[2].suspendedTime == 10 + 10 * n
    && k.procs[2].fixed.priority == 0
  }

  lemma ThreeLive(ps: seq<Process>)
    requires |ps| == 3 && !ps[0].status.Dead? && !ps[1].status.Dead? && !ps[2].status.Dead?
    ensures |LiveSlots(ps)| == 3
  {
    assert LiveSlots(ps) == {0, 1, 2};
  }

  /** Without timers the interrupt is just an update. */
  lemma TickIsUpdate(k: Kernel)
    requires Inv(k) && k.timers.slots == []
    ensures Safe(k, TimerIrq) && Step(k, TimerIrq) == Park(SchedulerUpdate(k, true))
  {
    OwnersDeliverable(k);
    assert T.TickSlots([]) == [];
    assert Fired(k) == k;
  }

  lemma ThirdOfASecond(ps: seq<Process>, p: Process, dt: nat)
    requires |LiveSlots(ps)| == 3 && p.fixed.priority == 0 && p.runningTime + dt < WORD
    ensures WithinQuantum(ps, p, dt) <==> p.runningTime + dt <= 333
  {
  }

  lemma WithinIff(k: Kernel, n: nat)
    requires TwoBusy(k, n) && n <= 33
    ensures WithinQuantum(k.procs, k.procs[1], 10) <==> n < 33
  {
    ThreeLive(k.procs);
    ThirdOfASecond(k.procs, k.procs[1], 10);
  }

  /** One tick within the quantum of 333 milliseconds. */
  lemma StaysBusy(k: Kernel, n: nat)
    requires TwoBusy(k, n) && n < 33
    ensures Safe(k, TimerIrq) && TwoBusy(Step(k, TimerIrq), n + 1)
  {
    TickIsUpdate(k);
    StepKeepsInv(k, TimerIrq);
    WithinIff(k, n);
    KeepsProcessorIff(k, 1);
    EntriesCharged(k, 1);
    EntriesCharged(k, 2);
    UpdateSame(k, true);
    var u := SchedulerUpdate(k, true);
    assert Same(k.procs[2], u.procs[2]);
    OnlyHolder(k, u);
    StillBusy(k, u, n);
  }

  lemma OnlyHolder(k: Kernel, u: Kernel)
    requires Schedulable(k, true) && k.enabled && k.canUpdate && u == SchedulerUpdate(k, true) && |k.procs| == 3
    requires |u.procs| == 3 && u.procs[1].status.Running? && k.procs[2].status.Normal? && k.procs[2].started
    ensures !u.procs[2].status.Running? && u.procs[2].started
  {
    UpdateLeavesOneRunning(k, true);
    UpdateSlot(k, true, 2);
  }

  lemma StillBusy(k: Kernel, u: Kernel, n: nat)
    requires TwoBusy(k, n) && n < 33 && |u.procs| == 3 && Inv(Park(u))
    requires u == k.(procs := u.procs, cpu := u.cpu, loaded := u.loaded, updates := 0) && u.procs[1].status.Running?
    requires TimesCharged(k.procs[1], u.procs[1], 10) && TimesCharged(k.procs[2], u.procs[2], 10)
    requires u.procs[2].status.Normal? && u.procs[2].started
    ensures TwoBusy(Park(u), n + 1)
  {
  }

  /** The tick that exceeds it. */
  lemma GivesWay(k: Kernel)
    requires TwoBusy(k, 33)
    ensures Safe(k, TimerIrq) && Step(k, TimerIrq).procs[2].status.Running?
  {
    TickIsUpdate(k);
    SecondRuns(k);
  }

  lemma SecondRuns(k: Kernel)
    requires TwoBusy(k, 33)
    ensures Runs(k, SchedulerUpdate(k, true), 2)
  {
    WithinIff(k, 33);
    SecondIsBest(k, 33);
    KeepsProcessorIff(k, 1);
    GoesToBest(k, true, 2);
  }

  lemma SecondIsBest(k: Kernel, n: nat)
    requires TwoBusy(k, n) && n <= 33
    ensures BestCandidate(k.procs, 10, 2) && AnyCandidate(k.procs, 10)
  {
    assert ScoreAfter(k.procs[2], 10) == 20 + 10 * n;
    assert Candidate(k.procs[2], 10);
  }

  lemma {:induction false} BusyUntil(k: Kernel, n: nat, m: nat)
    requires TwoBusy(k, n) && n + m <= 33
    ensures CanRun(k, F.Ticks(m)) && TwoBusy(Run(k, F.Ticks(m)), n + m)
    decreases m
  {
    if m > 0 {
      StaysBusy(k, n);
      F.TicksSplit(k, m);
      BusyUntil(Step(k, TimerIrq), n + 1, m - 1);
    }
  }

  lemma {:induction false} TicksJoin(k: Kernel, m: nat)
    requires CanRun(k, F.Ticks(m)) && Safe(k, TimerIrq) && Safe(Run(k, F.Ticks(m)), TimerIrq)
    ensures CanRun(k, F.Ticks(m + 1)) && Run(k, F.Ticks(m + 1)) == Step(Run(k, F.Ticks(m)), TimerIrq)
    decreases m
  {
    if m > 0 {
      F.TicksSplit(k, m);
      TicksJoinRest(k, m);
    } else {
      assert F.Ticks(1)[1..] == F.Ticks(0);
    }
  }

  lemma {:induction false} TicksJoinRest(k: Kernel, m: nat)
    requires m > 0 && Safe(k, TimerIrq) && CanRun(Step(k, TimerIrq), F.Ticks(m - 1))
    requires Safe(Run(Step(k, TimerIrq), F.Ticks(m - 1)), TimerIrq)
    ensures CanRun(k, F.Ticks(m + 1))
    ensures Run(k, F.Ticks(m + 1)) == Step(Run(Step(k, TimerIrq), F.Ticks(m - 1)), TimerIrq)
    decreases m, 0
  {
    var s := Step(k, TimerIrq);
    if m > 1 {
      F.TicksSplit(s, m - 1);
    } else {
      assert F.Ticks(0) == [];
    }
    TicksJoin(s, m - 1);
    F.TicksSplit(k, m + 1);
  }

  /** Of two busy processes beside ALIVE the first keeps the processor for 33 ticks; the 34th gives it to the second. */
  lemma TurnEndsExactly(regs: Registers)
    ensures F.RunsAfter(F.TwoProcesses(regs), 33, 1) && F.RunsAfter(F.TwoProcesses(regs), 34, 2)
  {
    var k := F.TwoProcesses(regs);
    BusyAtFirst(regs);
    BusyUntil(k, 0, 33);
    GivesWay(Run(k, F.Ticks(33)));
    OwnersDeliverable(k);
    TicksJoin(k, 33);
  }

  lemma BusyAtFirst(regs: Registers)
    ensures TwoBusy(F.TwoProcesses(regs), 0)
  {
    assert LiveAt(F.TwoProcesses(regs).procs, 1);
  }

  // ---------------------------------------------------------------- after boot

  /** After boot: the table holds ALIVE alone, and the clock does nothing. */
  lemma BootIsOff(pd: nat, stack: u32, main: u32, regs: Registers, left: Process)
    ensures var k := Boot(pd, stack, main, regs, left);
            && Inv(k) && |k.procs| == 1 && !k.procs[0].fixed.foreground && k.loaded == pd && k.cpu == regs
            && Step(k, TimerIrq) == k && Step(k, StartAlive) == k.(enabled := true)
  {
    var k := Boot(pd, stack, main, regs, left);
    BootInv(pd, stack, main, regs, left);
    TickIsUpdate(k);
    assert LiveAt(k.procs, ALIVE);
  }

  /**
   * The first process started, once scheduling is switched on, is at its entry point in its own
   * directory; when it waits for an event, the processor is at ALIVE's, in kernel segments.
   */
  lemma FirstSteps(pd: nat, stack: u32, main: u32, regs: Registers, left: Process, a: u32, top: u32, space: nat)
    ensures var k := Boot(pd, stack, main, regs, left);
            var spawn := Spawn(a, 1, true, true, space, top);
            && Safe(k, spawn) && Safe(Step(k, spawn), StartAlive)
            && var s := Step(Step(k, spawn), StartAlive);
               && s.procs[1].status.Running? && s.loaded == space
               && s.cpu.general.eip == a && s.cpu.general.esp == top && s.cpu.cs == 24
               && Safe(s, Pull)
               && var r := Step(s, Pull);
                  && NoneRunning(r.procs) && r.procs[1].registers == s.cpu && r.loaded == pd
                  && r.cpu.general.eip == main && r.cpu.general.esp == stack && r.cpu.cs == 8 && r.cpu.ds == 16
  {
    var k := Boot(pd, stack, main, regs, left);
    BootInv(pd, stack, main, regs, left);
    var spawn := Spawn(a, 1, true, true, space, top);
    var n := SpawnFills(k, spawn);
    var k1 := Step(k, spawn);
    StepKeepsInv(k, spawn);
    FirstEntered(k1);
    var s := Step(k1, StartAlive);
    StepKeepsInv(k1, StartAlive);
    FirstWaits(s);
  }

  lemma FirstEntered(k: Kernel)
    requires Inv(k) && |k.procs| == 2 && !k.enabled && k.canUpdate && IsFresh(k.procs[1]) && k.procs[1].events == []
    ensures var s := Step(k, StartAlive);
            && |s.procs| == 2 && s.procs[1].status.Running? && s.enabled && s.canUpdate
            && s.procs[1].events == [] && s.procs[0] == k.procs[0] && s.procs[1].started
            && s.cpu == Launched(k.procs[1], 1) && s.loaded == k.procs[1].fixed.pd
  {
    var e := StartSwitchesOn(k);
    assert Candidate(e.procs[1], 0) && BestCandidate(e.procs, 0, 1);
    GoesToBest(e, false, 1);
    UpdateSlot(e, false, 1);
    UpdateSame(e, false);
    UpdateLeavesOneRunning(e, false);
  }

  lemma FirstWaits(k: Kernel)
    requires Inv(k) && |k.procs| == 2 && k.enabled && k.canUpdate
    requires k.procs[1].status.Running? && k.procs[1].events == []
    ensures Safe(k, Pull)
    ensures var r := Step(k, Pull);
            && NoneRunning(r.procs) && |r.procs| == 2 && r.procs[1].registers == k.cpu
            && r.loaded == k.procs[0].fixed.pd
            && r.cpu == Launched(k.procs[0].(started := false), 0)
  {
    CallerIs(k, 1);
    var s := PullWaits(k, 1);
    assert !AnyCandidate(s.procs, 0);
    GoesToAlive(s, false);
    EntersAlive(s);
  }

  lemma EntersAlive(s: Kernel)
    requires Inv(s) && |s.procs| == 2 && s.enabled && s.canUpdate
    requires NoneRunning(s.procs) && s.procs[1].status.Suspended?
    requires SchedulerUpdate(s, false).procs[0].status.Running?
    ensures var r := Park(SchedulerUpdate(s, false));
            |r.procs| == 2 && NoneRunning(r.procs) && r.procs[1].registers == s.procs[1].registers
  {
    UpdateSlot(s, false, 1);
    UpdateLeavesOneRunning(s, false);
  }
}
