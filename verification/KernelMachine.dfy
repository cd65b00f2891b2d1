/**
 * process.c and timer.c as the code runs: one object holding their static variables, whose
 * methods loop over the tables and update them in place. Each method is proved to do what
 * module Kernel says of the state before it.
 */
module KernelMachine {
  import opened Words
  import opened Timers
  import opened Processes
  import K = Kernel

  class TomatKernel {
    var procs: seq<Process>
    var lastUid: nat
    var canUpdate: bool
    var enabled: bool
    var updates: nat
    var timers: seq<Timer>
    var ids: u32
    var cpu: Registers
    var loaded: nat

    function State(): K.Kernel
      reads this
    {
      K.Kernel(procs, lastUid, canUpdate, enabled, updates, TimerTable(timers, ids), cpu, loaded)
    }

    /** `process_init`, with the entry of ALIVE built by `initialize_alive` over whatever was in memory. */
    constructor (pd: nat, stack: u32, main: u32, regs: Registers, left: Process)
      ensures State() == K.Boot(pd, stack, main, regs, left)
    {
      var alive := left;
      alive := alive.(fixed := alive.fixed.(pd := pd));
      alive := alive.(status := Suspended);
      alive := alive.(fixed := alive.fixed.(main := main, stack := stack));
      alive := alive.(events := []);
      alive := alive.(fixed := alive.fixed.(user := USER_ALIVE, uid := ALIVE, priority := 0));
      alive := alive.(fixed := alive.fixed.(foreground := false, core := false));
      alive := alive.(started := true);
      procs := [alive];
      lastUid, canUpdate, enabled, updates := 0, false, false, 0;
      timers, ids := [], 0;
      cpu, loaded := regs, pd;
    }

    // -------------------------------------------------------------- lookups

    method ProcessGet(uid: nat) returns (r: Option<nat>)
      ensures r == FindUid(procs, uid)
    {
      var i := 0;
      while i < |procs|
        invariant 0 <= i <= |procs|
        invariant forall j :: 0 <= j < i ==> !(IsLive(procs[j]) && procs[j].fixed.uid == uid)
      {
        if !procs[i].status.Dead? && procs[i].fixed.uid == uid {
          FirstIs(procs, p => IsLive(p) && p.fixed.uid == uid, i);
          return Some(i);
        }
        i := i + 1;
      }
      r := None;
    }

    method ProcessGetRunning() returns (r: Option<nat>)
      ensures r == First(procs, IsRunning)
    {
      var i := 0;
      while i < |procs|
        invariant 0 <= i <= |procs|
        invariant forall j :: 0 <= j < i ==> !IsRunning(procs[j])
      {
        if procs[i].status.Running? {
          FirstIs(procs, IsRunning, i);
          return Some(i);
        }
        i := i + 1;
      }
      r := None;
    }

    method ProcessGetCoreProcess() returns (r: Option<nat>)
      ensures r == First(procs, IsLiveCore)
    {
      var i := 0;
      while i < |procs|
        invariant 0 <= i <= |procs|
        invariant forall j :: 0 <= j < i ==> !IsLiveCore(procs[j])
      {
        if !procs[i].status.Dead? && procs[i].fixed.core {
          FirstIs(procs, IsLiveCore, i);
          return Some(i);
        }
        i := i + 1;
      }
      r := None;
    }

    // -------------------------------------------------------------- scheduler

    method PullEvent(i: nat)
      requires i < |procs| && procs[i].events != []
      modifies this`procs
      ensures procs == old(procs)[i := PullFront(old(procs)[i])]
    {
      var events := procs[i].events;
      procs := procs[i := procs[i].(currentEvent := events[0])];
      procs := procs[i := procs[i].(events := events[1..])];
    }

    method ProcessSwitch(current: Option<nat>, n: nat)
      requires n < |procs|
      requires current.Some? ==> current.value < |procs| && current.value != n
      modifies this`procs, this`cpu, this`loaded
      ensures State() == K.Switch(old(State()), current, n)
    {
      if current.Some? {
        var c := current.value;
        procs := procs[c := procs[c].(registers := cpu, status := Normal)];
      }
      var p := procs[n];
      if !p.started {
        p := p.(started := true, status := Running);
        p := p.(registers := ZeroRegisters());
        var g := p.registers.general;
        g := g.(esp := p.fixed.stack);
        g := g.(ebp := p.fixed.stack);
        g := g.(useresp := p.fixed.stack);
        g := g.(eip := p.fixed.main);
        g := g.(eflags := INITIAL_EFLAGS);
        p := p.(registers := p.registers.(general := g));
      }
      if p.fixed.user == USER_ALIVE {
        p := p.(registers := p.registers.(ds := GDT_SEGMENT_DATA, cs := GDT_SEGMENT_CODE));
      } else {
        p := p.(registers := p.registers.(ds := GDT_SEGMENT_USER_DATA, cs := GDT_SEGMENT_USER_CODE));
      }
      cpu := p.registers;
      p := p.(status := Running);
      procs := procs[n := p];
      loaded := p.fixed.pd;
    }

    /** The selection loop, written out twice in `scheduler_update`. */
    method Scan() returns (best: Option<nat>)
      ensures best == Pick(procs)
    {
      var bestScore := 0;
      best := None;
      var i := 0;
      while i < |procs|
        invariant 0 <= i <= |procs|
        invariant forall j :: 0 <= j < i ==> !IsFresh(procs[j])
        invariant best == Best(procs[..i])
        invariant bestScore == if best.Some? then Score(procs[best.value]) else 0
      {
        assert procs[..i + 1][..i] == procs[..i];
        if procs[i].status.Normal? {
          if !procs[i].started {
            FirstIs(procs, IsFresh, i);
            return Some(i);
          }
          var score := Score(procs[i]);
          if bestScore < score {
            bestScore := score;
            best := Some(i);
          }
        }
        i := i + 1;
      }
      assert procs[..i] == procs;
    }

    /** One pass of the tick loop: account the time, then wake the process if an event waits for it. */
    method TickEntry(i: nat, passed: int) returns (running: bool, counted: bool)
      requires i < |procs|
      modifies this`procs
      ensures procs == old(procs)[i := TickProcess(old(procs)[i], i, passed)]
      ensures running == old(procs)[i].status.Running?
      ensures counted == IsLive(old(procs)[i])
    {
      running, counted := false, false;
      if !procs[i].status.Dead? && !procs[i].status.Running? {
        procs := procs[i := procs[i].(suspendedTime := Wrap(procs[i].suspendedTime + passed))];
        counted := true;
      } else if procs[i].status.Running? {
        procs := procs[i := procs[i].(runningTime := Wrap(procs[i].runningTime + passed))];
        running, counted := true, true;
      }
      if procs[i].status.Suspended? {
        if |procs[i].events| != 0 {
          PullEvent(i);
          procs := procs[i := procs[i].(registers := procs[i].registers.(eax := CurrentEventOf(i)))];
          procs := procs[i := procs[i].(status := Normal)];
        }
      }
    }

    /** The loop over all processes at the top of a timer update. */
    method TickLoop(passed: int) returns (running: Option<nat>, count: nat)
      modifies this`procs
      ensures procs == TickAll(old(procs), passed)
      ensures running == LastRunning(old(procs))
      ensures count == LiveCount(old(procs))
    {
      ghost var before := procs;
      running, count := None, 0;
      var i := 0;
      while i < |procs|
        invariant 0 <= i <= |procs| == |before|
        invariant forall j :: 0 <= j < i ==> procs[j] == TickProcess(before[j], j, passed)
        invariant forall j :: i <= j < |procs| ==> procs[j] == before[j]
        invariant running == LastRunning(before[..i])
        invariant count == LiveCount(before[..i])
      {
        assert before[..i + 1][..i] == before[..i];
        var isRunning, counted := TickEntry(i, passed);
        if isRunning {
          running := Some(i);
        }
        if counted {
          count := count + 1;
        }
        i := i + 1;
      }
      assert before[..i] == before;
    }

    /** The branch of `scheduler_update` for when no process is running. */
    method SwitchFromIdle()
      requires |procs| > 0
      modifies this`procs, this`cpu, this`loaded
      ensures State() == K.SwitchFromIdle(old(State()))
    {
      var best := Scan();
      if best.None? {
        procs := procs[ALIVE := procs[ALIVE].(started := false)];
        ProcessSwitch(None, ALIVE);
      } else {
        ProcessSwitch(None, best.value);
      }
    }

    /** The branch for when process r is running: switch only once its quantum is used up. */
    method CheckQuantum(r: nat, count: nat)
      requires r < |procs| && procs[r].status.Running? && count > 0
      modifies this`procs, this`cpu, this`loaded
      ensures State() == K.CheckQuantum(old(State()), r, count)
    {
      if procs[r].runningTime > 1000 / count + procs[r].fixed.priority * 100 {
        var best := Scan();
        if best.Some? {
          ProcessSwitch(Some(r), best.value);
        }
      }
    }

    method SchedulerUpdate(fromTimer: bool)
      requires |procs| > 0
      modifies this`procs, this`canUpdate, this`updates, this`cpu, this`loaded
      ensures State() == K.SchedulerUpdate(old(State()), fromTimer)
    {
      if !enabled {
        return;
      }
      if !canUpdate {
        if fromTimer {
          updates := updates + 1;
        }
        return;
      }
      canUpdate := false;
      ghost var guarded := State();
      Schedule(fromTimer);
      canUpdate := true;
      K.FlagIsPassive(guarded, true);
    }

    /** The part of `scheduler_update` that only the timer runs. */
    method ChargeTime() returns (running: Option<nat>, count: nat)
      modifies this`procs, this`updates
      ensures State() == K.Ticked(old(State()))
      ensures running == LastRunning(old(procs)) && count == LiveCount(old(procs))
    {
      ghost var k := State();
      var passed := updates * 10 + 10;
      updates := 0;
      running, count := TickLoop(passed);
      K.TickedIs(k, procs, passed);
    }

    /** `scheduler_update` between its two writes of `can_update`. */
    method Schedule(fromTimer: bool)
      requires |procs| > 0
      modifies this`procs, this`updates, this`cpu, this`loaded
      ensures State() == if fromTimer then K.TickSchedule(old(State())) else K.SwitchFromIdle(old(State()))
    {
      var running: Option<nat> := None;
      var count := 0;
      if fromTimer {
        running, count := ChargeTime();
      }
      if running.None? {
        SwitchFromIdle();
      } else {
        LiveCountPositive(old(procs), running.value);
        CheckQuantum(running.value, count);
      }
    }

    // -------------------------------------------------------------- process life

    method ProcessCreate(main: u32, user: u32, foreground: bool, pd: nat, stack: u32) returns (p: Process)
      modifies this`lastUid
      ensures lastUid == old(lastUid) + 1
      ensures p == Created(lastUid, main, user, foreground, false, pd, stack)
    {
      lastUid := lastUid + 1;
      p := Process(Fixed(0, 0, 0, 0, 0, 0, false, false), Running, false, ZeroRegisters(), ZeroEvent(), [], 0, 0);
      p := p.(fixed := p.fixed.(uid := lastUid, pd := pd));
      p := p.(status := Suspended, events := [], started := false);
      p := p.(fixed := p.fixed.(stack := stack, user := user, main := main, foreground := foreground, core := false));
    }

    method ProcessStart(newProcess: Process)
      modifies this`procs, this`canUpdate
      ensures State() == K.StartProcess(old(State()), newProcess)
    {
      canUpdate := false;
      var p := newProcess.(started := false);
      p := p.(status := Normal);
      var i := 0;
      while i < |procs|
        invariant 0 <= i <= |procs|
        invariant forall j :: 0 <= j < i ==> !IsDead(procs[j])
      {
        if procs[i].status.Dead? {
          FirstIs(procs, IsDead, i);
          procs := procs[i := p];
          return;
        }
        i := i + 1;
      }
      procs := procs + [p];
      canUpdate := true;
    }

    method TimerCancel(uid: nat, id: u32)
      modifies this`timers
      ensures timers == CancelSlots(old(timers), uid, id)
    {
      ghost var before := timers;
      var i := 0;
      while i < |timers|
        invariant 0 <= i <= |timers| == |before|
        invariant forall j :: 0 <= j < i ==>
                    timers[j] == if Cancels(uid, id, before[j]) then before[j].(finished := true) else before[j]
        invariant forall j :: i <= j < |timers| ==> timers[j] == before[j]
      {
        if (timers[i].id == id || id == 0) && timers[i].uid == uid {
          timers := timers[i := timers[i].(finished := true)];
        }
        i := i + 1;
      }
    }

    /** `process_kill` up to the point where the scheduler may have to run. */
    method Bury(i: nat) returns (wasRunning: bool)
      requires i < |procs|
      modifies this`procs, this`canUpdate, this`loaded, this`timers
      ensures State() == K.Bury(old(State()), i)
      ensures wasRunning == old(procs)[i].status.Running?
    {
      canUpdate := false;
      wasRunning := false;
      if procs[i].status.Running? {
        loaded := procs[ALIVE].fixed.pd;
        wasRunning := true;
      }
      procs := procs[i := procs[i].(status := Dead)];
      procs := procs[i := procs[i].(events := [])];
      TimerCancel(procs[i].fixed.uid, 0);
      canUpdate := true;
    }

    method ProcessKill(i: nat)
      requires i < |procs|
      modifies this
      ensures State() == if old(procs)[i].status.Running? then K.SchedulerUpdate(K.Bury(old(State()), i), false)
                         else K.Bury(old(State()), i)
    {
      var wasRunning := Bury(i);
      if wasRunning {
        SchedulerUpdate(false);
      }
    }

    // -------------------------------------------------------------- syscalls

    /** Each returns false where the code panics or follows a null pointer. */
    method SyscallStartAlive()
      requires |procs| > 0
      modifies this
      ensures State() == K.Handle(old(State()), K.StartAlive)
    {
      if enabled {
        return;
      }
      enabled := true;
      loaded := procs[ALIVE].fixed.pd;
      SchedulerUpdate(false);
    }

    method PullOrSuspend(r: nat)
      requires r < |procs|
      modifies this
      ensures State() == if old(procs)[r].events != [] then K.Deliver(old(State()), r)
                         else K.SchedulerUpdate(K.Suspend(old(State()), r), false)
    {
      if |procs[r].events| > 0 {
        PullEvent(r);
        cpu := cpu.(eax := CurrentEventOf(r));
      } else {
        procs := procs[r := procs[r].(status := Suspended)];
        procs := procs[r := procs[r].(registers := cpu)];
        assert State() == K.Suspend(old(State()), r);
        SchedulerUpdate(false);
      }
    }

    method SyscallPullEvent() returns (ok: bool)
      modifies this
      ensures ok <==> old(K.Safe(State(), K.Pull))
      ensures ok ==> State() == K.Handle(old(State()), K.Pull)
    {
      var current := ProcessGetRunning();
      if current.None? {
        return false;
      }
      PullOrSuspend(current.value);
      ok := true;
    }

    method SyscallQueueEvent(event: Event, uid: u32) returns (ok: bool)
      modifies this
      ensures ok <==> old(K.Safe(State(), K.Queue(event, uid)))
      ensures ok ==> State() == K.Handle(old(State()), K.Queue(event, uid))
    {
      var current := ProcessGetRunning();
      if current.None? {
        return false;
      }
      var r := current.value;
      var target := current;
      if uid != 0 {
        target := ProcessGet(uid);
      }
      if target.None? {
        return true;
      }
      if r != target.value && !HasPermission(procs[target.value].fixed.user, procs[r].fixed.user) {
        return true;
      }
      procs := PushEvent(procs, target.value, event);
      ok := true;
    }

    /** Who a kill syscall by the running process r ends; false where the code follows a null pointer. */
    method FindVictim(r: nat, uid: u32) returns (ok: bool, victim: Option<nat>)
      requires r < |procs|
      ensures ok <==> uid == 0 || FindUid(procs, uid).Some?
      ensures ok ==> victim == K.KillTarget(State(), r, uid)
    {
      ok, victim := true, Some(r);
      if uid != 0 {
        victim := ProcessGet(uid);
        if victim.None? {
          ok := false;
        } else if HasPermission(procs[victim.value].fixed.user, procs[r].fixed.user) {
          victim := None;
        }
      }
    }

    method SyscallProcessKill(uid: u32) returns (ok: bool)
      modifies this
      ensures ok <==> old(K.Safe(State(), K.Kill(uid)))
      ensures ok ==> State() == K.Handle(old(State()), K.Kill(uid))
    {
      var current := ProcessGetRunning();
      if current.None? {
        return false;
      }
      var victim;
      ok, victim := FindVictim(current.value, uid);
      if ok && victim.Some? {
        ProcessKill(victim.value);
      }
    }

    method SyscallTimerStart(millis: u32) returns (ok: bool)
      modifies this
      ensures ok <==> old(K.Safe(State(), K.TimerStart(millis)))
      ensures ok ==> State() == K.Handle(old(State()), K.TimerStart(millis))
    {
      var current := ProcessGetRunning();
      if current.None? {
        return false;
      }
      var id := StartTimer(procs[current.value].fixed.uid, millis);
      cpu := cpu.(eax := Num(id));
      ok := true;
    }

    method SyscallTimerCancel(id: u32) returns (ok: bool)
      modifies this
      ensures ok <==> old(K.Safe(State(), K.TimerCancel(id)))
      ensures ok ==> State() == K.Handle(old(State()), K.TimerCancel(id))
    {
      var current := ProcessGetRunning();
      if current.None? {
        return false;
      }
      TimerCancel(procs[current.value].fixed.uid, id);
      ok := true;
    }

    /** Creating a process, marking it core if asked, and starting it, as kernel_boot does. */
    method Spawn(main: u32, user: u32, foreground: bool, core: bool, pd: nat, stack: u32)
      requires K.Safe(State(), K.Spawn(main, user, foreground, core, pd, stack))
      modifies this
      ensures State() == K.Handle(old(State()), K.Spawn(main, user, foreground, core, pd, stack))
    {
      var p := ProcessCreate(main, user, foreground, pd, stack);
      p := p.(fixed := p.fixed.(core := core));
      ProcessStart(p);
    }

    // -------------------------------------------------------------- interrupts

    method KeyEvent(event: Event) returns (ok: bool)
      modifies this
      ensures ok <==> old(K.Safe(State(), K.Key(event)))
      ensures ok ==> State() == K.Handle(old(State()), K.Key(event))
    {
      var core := ProcessGetCoreProcess();
      if core.None? {
        return false;
      }
      procs := PushEvent(procs, core.value, event);
      ok := true;
    }

    method StartTimer(uid: nat, millis: u32) returns (id: u32)
      modifies this`timers, this`ids
      ensures TimerTable(timers, ids) == Timers.StartTimer(old(TimerTable(timers, ids)), uid, millis)
      ensures id == ids
    {
      ids := Wrap(ids + 1);
      var newTimer := Timer(ids, uid, millis, false);
      var i := 0;
      while i < |timers|
        invariant 0 <= i <= |timers|
        invariant forall j :: 0 <= j < i ==> !IsFinished(timers[j])
      {
        if timers[i].finished {
          FirstIs(timers, IsFinished, i);
          timers := timers[i := newTimer];
          return timers[i].id;
        }
        i := i + 1;
      }
      timers := timers + [newTimer];
      id := newTimer.id;
    }

    /** One pass of the timer loop: fire timer i if it is due, otherwise count it down. */
    method FireTimer(i: nat) returns (ok: bool)
      requires i < |timers|
      modifies this`procs, this`timers
      ensures timers == old(timers)[i := TickTimer(old(timers)[i])]
      ensures ok <==> (Due(old(timers)[i]) ==> FindUid(old(procs), old(timers)[i].uid).Some?)
      ensures ok ==> procs == if Due(old(timers)[i]) then K.PushTimer(old(procs), old(timers)[i]) else old(procs)
    {
      ok := true;
      var t := timers[i];
      if !t.finished {
        if Wrap(t.left - 10) == 0 || Wrap(t.left - 10) > t.left {
          timers := timers[i := t.(finished := true)];
          var owner := ProcessGet(t.uid);
          if owner.None? {
            return false;
          }
          procs := PushEvent(procs, owner.value, Event(EventTimer, t.id, 0, 0, 0));
        } else {
          timers := timers[i := t.(left := Wrap(t.left - 10))];
        }
      }
    }

    /** The loop of the timer interrupt. */
    method FireTimers() returns (ok: bool)
      modifies this`procs, this`timers
      ensures ok <==> K.Deliverable(old(procs), DueTimers(old(timers)))
      ensures ok ==> timers == TickSlots(old(timers)) && procs == K.PushTimers(old(procs), DueTimers(old(timers)))
    {
      ghost var slots := timers;
      ghost var before := procs;
      var i := 0;
      while i < |timers|
        invariant 0 <= i <= |timers| == |slots|
        invariant forall j :: 0 <= j < i ==> timers[j] == TickTimer(slots[j])
        invariant forall j :: i <= j < |timers| ==> timers[j] == slots[j]
        invariant procs == K.PushTimers(before, DueTimers(slots[..i]))
        invariant K.Deliverable(before, DueTimers(slots[..i]))
      {
        K.FireOne(before, slots, i);
        ok := FireTimer(i);
        if !ok {
          return false;
        }
        i := i + 1;
      }
      assert slots[..i] == slots;
      assert timers == TickSlots(slots);
      ok := true;
    }

    method HandleTimerIrq() returns (ok: bool)
      requires |procs| > 0
      modifies this
      ensures ok <==> old(K.Safe(State(), K.TimerIrq))
      ensures ok ==> State() == K.Handle(old(State()), K.TimerIrq)
    {
      ok := FireTimers();
      if ok {
        assert State() == K.Fired(old(State()));
        SchedulerUpdate(true);
      }
    }

    /** What ALIVE executes first whenever it is entered. */
    method AliveWaitForEvents()
      requires |procs| > 0
      modifies this`procs
      ensures procs == old(procs)[ALIVE := old(procs)[ALIVE].(status := Suspended, started := true)]
      ensures old(procs[ALIVE].status.Running?) ==> State() == K.Park(old(State()))
    {
      procs := procs[ALIVE := procs[ALIVE].(status := Suspended)];
      procs := procs[ALIVE := procs[ALIVE].(started := true)];
    }
  }
}
