/**
 * What each interrupt and syscall does, said of table entries, registers and numbers alone.
 * Module SchedulerLaws says the same of the update that some of them end with.
 */
module HandlerLaws {
  import opened Words
  import T = Timers
  import opened Processes
  import opened Kernel
  import opened KernelInvariant
  import opened Delivery
  import opened SchedulerLaws

  /** Slot r holds the running process. */
  predicate Caller(k: Kernel, r: nat) {
    r < |k.procs| && k.procs[r].status.Running?
  }

  lemma CallerIs(k: Kernel, r: nat)
    requires Inv(k) && Caller(k, r)
    ensures Current(k) == Some(r) && r != ALIVE
  {
    assert IsRunning(k.procs[r]);
    FirstIs(k.procs, IsRunning, r);
  }

  // ---------------------------------------------------------------- events

  /** r is k with the events pushed that belong to each slot, and nothing else changed. */
  ghost predicate OnlyPushes(k: Kernel, r: Kernel, op: Op) {
    && r == k.(procs := r.procs) && |r.procs| == |k.procs|
    && forall i :: 0 <= i < |k.procs| ==>
         r.procs[i] == k.procs[i].(events := k.procs[i].events + PushedAt(k, op, i))
  }

  /**
   * An event queued for 0 is the caller's; one queued for a uid is for the first live process with
   * it, if that is the caller or the caller's user ranks no lower; any other is dropped.
   */
  lemma QueueReaches(k: Kernel, event: Event, target: u32, r: nat)
    requires Inv(k) && Caller(k, r)
    ensures Safe(k, Queue(event, target)) && OnlyPushes(k, Step(k, Queue(event, target)), Queue(event, target))
    ensures forall i: nat :: i < |k.procs| ==>
              PushedAt(k, Queue(event, target), i) == if Reaches(k.procs, r, target, i) then [event] else []
  {
    CallerIs(k, r);
    var op := Queue(event, target);
    assert Step(k, op) == k.(procs := Step(k, op).procs) && |Step(k, op).procs| == |k.procs|;
    forall i: nat | i < |k.procs|
      ensures Step(k, op).procs[i] == k.procs[i].(events := k.procs[i].events + PushedAt(k, op, i))
      ensures PushedAt(k, op, i) == if Reaches(k.procs, r, target, i) then [event] else []
    {
      QueueReachesSlot(k, event, target, r, i);
    }
  }

  lemma QueueReachesSlot(k: Kernel, event: Event, target: u32, r: nat, i: nat)
    requires Inv(k) && Caller(k, r) && Current(k) == Some(r) && i < |k.procs|
    ensures var e := if Reaches(k.procs, r, target, i) then [event] else [];
            && PushedAt(k, Queue(event, target), i) == e
            && Step(k, Queue(event, target)).procs[i] == k.procs[i].(events := k.procs[i].events + e)
  {
    QueueTargetIs(k, r, target, i);
    PushedIs(k, Queue(event, target), i);
    assert k.procs[i].events + [] == k.procs[i].events;
  }

  /** A key goes to the first live core process, and only a missing one is fatal. */
  lemma KeyReaches(k: Kernel, event: Event)
    requires Inv(k)
    ensures Safe(k, Key(event)) <==> exists i: nat :: FirstCore(k.procs, i)
    ensures Safe(k, Key(event)) ==> OnlyPushes(k, Step(k, Key(event)), Key(event))
  {
    if Safe(k, Key(event)) {
      FirstCoreIs(k.procs, First(k.procs, IsLiveCore).value);
      forall i | 0 <= i < |k.procs|
        ensures Step(k, Key(event)).procs[i] == k.procs[i].(events := k.procs[i].events + PushedAt(k, Key(event), i))
      {
        PushedIs(k, Key(event), i);
        assert k.procs[i].events + [] == k.procs[i].events;
      }
    }
    if i: nat :| FirstCore(k.procs, i) {
      FirstCoreIs(k.procs, i);
    }
  }

  /** A timer through a tick: at most ten milliseconds left and it is finished, otherwise ten fewer are left. */
  function Later(t: T.Timer): T.Timer {
    if t.finished then t else if t.left <= 10 then t.(finished := true) else t.(left := t.left - 10)
  }

  /**
   * The timer interrupt: expired timers push their events, all are counted down, and an update
   * follows.
   */
  lemma TimersThenUpdate(k: Kernel) returns (s: Kernel)
    requires Inv(k)
    ensures Safe(k, TimerIrq) && Inv(s)
    ensures s == k.(procs := s.procs, timers := s.timers) && s.timers.ids == k.timers.ids
    ensures |s.timers.slots| == |k.timers.slots|
    ensures forall j :: 0 <= j < |k.timers.slots| ==> s.timers.slots[j] == Later(k.timers.slots[j])
    ensures OnlyPushes(k, s.(timers := k.timers), TimerIrq)
    ensures Step(k, TimerIrq) == Park(SchedulerUpdate(s, true))
  {
    OwnersDeliverable(k);
    FiredInv(k);
    s := Fired(k);
    forall j | 0 <= j < |k.timers.slots|
      ensures s.timers.slots[j] == Later(k.timers.slots[j])
    {
      LaterIs(k.timers.slots[j]);
    }
    forall i | 0 <= i < |k.procs|
      ensures s.procs[i] == k.procs[i].(events := k.procs[i].events + PushedAt(k, TimerIrq, i))
    {
      PushTimersQueue(k.procs, T.DueTimers(k.timers.slots), i);
      PushedIs(k, TimerIrq, i);
    }
  }

  lemma LaterIs(t: T.Timer)
    ensures T.TickTimer(t) == Later(t)
  {
    T.DueIffTenOrLess(t);
  }

  // ---------------------------------------------------------------- waiting

  /** pull_event with an event queued: it becomes the current event, its address the result. */
  lemma PullTakes(k: Kernel, r: nat)
    requires Inv(k) && Caller(k, r) && k.procs[r].events != []
    ensures var p := k.procs[r];
            Step(k, Pull) == k.(procs := k.procs[r := p.(currentEvent := p.events[0], events := p.events[1..])],
                                cpu := k.cpu.(eax := CurrentEventOf(r)))
  {
    CallerIs(k, r);
  }

  /** And with none: the process waits with its registers saved, and an update follows. */
  lemma PullWaits(k: Kernel, r: nat) returns (s: Kernel)
    requires Inv(k) && Caller(k, r) && k.procs[r].events == []
    ensures s == k.(procs := k.procs[r := k.procs[r].(status := Suspended, registers := k.cpu)])
    ensures Inv(s) && NoneRunning(s.procs) && Step(k, Pull) == Park(SchedulerUpdate(s, false))
  {
    CallerIs(k, r);
    s := Suspend(k, r);
    SuspendKeepsInv(k, r);
  }

  // ---------------------------------------------------------------- processes

  /** r is k with slot i dead, its queue empty and its owner's timers finished. */
  ghost predicate Ended(k: Kernel, r: Kernel, i: nat) {
    && i < |k.procs|
    && r == k.(procs := k.procs[i := k.procs[i].(status := Dead, events := [])],
               timers := r.timers, loaded := r.loaded, canUpdate := true)
    && r.timers.ids == k.timers.ids && |r.timers.slots| == |k.timers.slots|
    && forall j :: 0 <= j < |k.timers.slots| ==>
         var t := k.timers.slots[j];
         r.timers.slots[j] == if t.uid == k.procs[i].fixed.uid then t.(finished := true) else t
  }

  /** The kill syscall spares a process its caller's user ranks no lower than. */
  lemma KillSpares(k: Kernel, victim: u32, r: nat, i: nat)
    requires Inv(k) && Caller(k, r) && victim != 0 && FirstLive(k.procs, victim, i) && Outranks(k.procs, r, i)
    ensures Safe(k, Kill(victim)) && Step(k, Kill(victim)) == k
  {
    CallerIs(k, r);
    FirstLiveIs(k.procs, victim, i);
  }

  /** Another process the caller does not outrank ends, and the caller goes on. */
  lemma KillEnds(k: Kernel, victim: u32, r: nat, i: nat)
    requires Inv(k) && Caller(k, r) && victim != 0 && FirstLive(k.procs, victim, i) && i != r
    requires !Outranks(k.procs, r, i)
    ensures Safe(k, Kill(victim)) && Ended(k, Step(k, Kill(victim)), i) && Step(k, Kill(victim)).loaded == k.loaded
  {
    CallerIs(k, r);
    FirstLiveIs(k.procs, victim, i);
    assert KillTarget(k, r, victim) == Some(i);
    assert Bury(k, i).loaded == k.loaded;
  }

  /** The caller ends by uid 0; ALIVE's directory is loaded until the update that follows. */
  lemma KillSelf(k: Kernel, r: nat) returns (s: Kernel)
    requires Inv(k) && Caller(k, r)
    ensures Ended(k, s, r) && s.loaded == k.procs[ALIVE].fixed.pd
    ensures Inv(s) && NoneRunning(s.procs) && Safe(k, Kill(0)) && Step(k, Kill(0)) == Park(SchedulerUpdate(s, false))
  {
    CallerIs(k, r);
    s := Bury(k, r);
    BuryKeepsInv(k, r, r);
  }

  /** Killing an unknown uid follows a null pointer, and so does any kill without a running process. */
  lemma KillSafeIff(k: Kernel, victim: u32)
    requires Inv(k)
    ensures Safe(k, Kill(victim))
            <==> (exists r: nat :: Caller(k, r)) && (victim == 0 || exists i: nat :: FirstLive(k.procs, victim, i))
  {
    if r: nat :| Caller(k, r) {
      CallerIs(k, r);
    }
    if Current(k).Some? {
      assert Caller(k, Current(k).value);
    }
    if i: nat :| FirstLive(k.procs, victim, i) {
      FirstLiveIs(k.procs, victim, i);
    }
    if FindUid(k.procs, victim).Some? {
      FirstLiveIs(k.procs, victim, FindUid(k.procs, victim).value);
    }
  }

  /**
   * A process is created and started in the first dead slot, or, if there is none, in a new one:
   * runnable, never run, with no events and no time spent, under the next uid.
   */
  lemma SpawnFills(k: Kernel, op: Op) returns (n: nat)
    requires Inv(k) && op.Spawn? && Safe(k, op)
    ensures var r := Step(k, op);
            && r == k.(procs := r.procs, lastUid := k.lastUid + 1, canUpdate := n == |k.procs|)
            && n < |r.procs| && |r.procs| == (if n == |k.procs| then |k.procs| + 1 else |k.procs|)
            && (n < |k.procs| ==> k.procs[n].status.Dead?)
            && (forall i :: 0 <= i < |k.procs| && i < n ==> !k.procs[i].status.Dead?)
            && (forall i :: 0 <= i < |k.procs| && i != n ==> r.procs[i] == k.procs[i])
            && r.procs[n].fixed == Fixed(pd := op.pd, main := op.main, stack := op.stack, user := op.user,
                                         uid := k.lastUid + 1, priority := 0, core := op.core,
                                         foreground := op.foreground)
            && r.procs[n].status.Normal? && !r.procs[n].started && r.procs[n].events == []
            && r.procs[n].suspendedTime == 0 && r.procs[n].runningTime == 0
            && r.procs[n].currentEvent == Event(EventAll, 0, 0, 0, 0)
            && r.procs[n].registers == Registers(0, 0, Num(0), General(0, 0, 0, 0, 0, 0, 0, 0, 0, 0, 0, 0, 0))
  {
    n := match First(k.procs, IsDead) case Some(i) => i case None => |k.procs|;
    assert n != ALIVE;
  }

  /** Scheduling is switched on once: ALIVE's directory is loaded, and an update follows. */
  lemma StartSwitchesOn(k: Kernel) returns (s: Kernel)
    requires Inv(k)
    ensures s == k.(enabled := true, loaded := k.procs[ALIVE].fixed.pd)
    ensures Step(k, StartAlive) == if k.enabled then k else Park(SchedulerUpdate(s, false))
    ensures !k.enabled ==> Inv(s) && NoneRunning(s.procs)
  {
    s := Enable(k);
    assert LiveAt(k.procs, ALIVE);
  }

  /** ALIVE, once entered, waits again; nobody else is touched. */
  lemma AliveParks(k: Kernel)
    requires |k.procs| > 0
    ensures Park(k)
            == if k.procs[0].status.Running? then
                 k.(procs := k.procs[0 := k.procs[0].(status := Suspended, started := true)])
               else k
  {
  }

  /** What user code leaves in the registers is all it changes here. */
  lemma UserSetsRegisters(k: Kernel, regs: Registers)
    requires Inv(k)
    ensures Safe(k, User(regs)) && Step(k, User(regs)) == k.(cpu := regs)
  {
  }

  // ---------------------------------------------------------------- first run

  /**
   * A process that gets the processor for the first time starts at its entry point with an empty
   * stack, interrupts on, all other registers zero, in the segments of its user.
   */
  lemma FirstRun(k: Kernel, op: Op, i: nat)
    requires Inv(k) && Safe(k, op) && 0 < i < |k.procs| && k.procs[i].status.Normal? && !k.procs[i].started
    requires Step(k, op).procs[i].status.Running?
    ensures var p := k.procs[i];
            Step(k, op).cpu == Registers(
              ds := if p.fixed.user == 0xFF then 16 else 32,
              cs := if p.fixed.user == 0xFF then 8 else 24,
              eax := Num(0),
              general := General(
                edi := 0, esi := 0, ebp := p.fixed.stack, esp := p.fixed.stack, ebx := 0, edx := 0, ecx := 0,
                intNo := 0, code := 0, eip := p.fixed.main, eflags := 0x202, useresp := p.fixed.stack, ss := 0))
    ensures Step(k, op).loaded == k.procs[i].fixed.pd && Step(k, op).procs[i].started
  {
    StepKeepsInv(k, op);
    PrepareSlot(k, op, i);
    StepSlot(k, op, i);
    LiveSlotKeepsUid(k, op, i);
    FirstStages(k.procs[i], Prepare(k, op).procs[i], SlotBefore(Prepare(k, op), op.TimerIrq?, i), Step(k, op).procs[i],
                Prepare(k, op).cpu, Step(k, op).cpu, op.TimerIrq?);
  }

  lemma FirstStages(p: Process, q: Process, b: Process, r: Process, cpu: Registers, cpu': Registers, fromTimer: bool)
    requires p.status.Normal? && !p.started && r.status.Running?
    requires q == p.(events := q.events) || IsDead(q)
    requires b == q || exists i, passed :: b == TickProcess(q, i, passed)
    requires Moved(b, r, cpu, cpu', fromTimer)
    ensures cpu' == Launched(p, 0) && r.started
  {
  }

  /** Whoever gets the processor gets the segments of its user, and its own directory. */
  lemma SegmentsOnEntry(k: Kernel, op: Op, i: nat)
    requires Inv(k) && Safe(k, op) && 0 < i < |k.procs| && IsLive(k.procs[i]) && !k.procs[i].status.Running?
    requires Step(k, op).procs[i].status.Running?
    ensures var user := k.procs[i].fixed.user;
            && Step(k, op).cpu.ds == (if user == 0xFF then 16 else 32)
            && Step(k, op).cpu.cs == (if user == 0xFF then 8 else 24)
            && Step(k, op).loaded == k.procs[i].fixed.pd
  {
    StepKeepsInv(k, op);
    PrepareSlot(k, op, i);
    StepSlot(k, op, i);
    LiveSlotKeepsUid(k, op, i);
  }

  // ---------------------------------------------------------------- timers

  /** The first finished timer's slot, or a new one. */
  predicate FreeTimerSlot(slots: seq<T.Timer>, j: nat) {
    && j <= |slots| && (j < |slots| ==> slots[j].finished)
    && forall i :: 0 <= i < j ==> !slots[i].finished
  }

  /**
   * timer_start answers with a nonzero number that no unfinished timer has, and one timer now has
   * it: the caller's, with all its time left. All other slots are as before.
   */
  lemma TimerStartAnswers(k: Kernel, millis: u32, r: nat) returns (id: u32, j: nat)
    requires Inv(k) && Caller(k, r) && T.IdsValid(k.timers) && k.timers.ids + 1 < WORD
    ensures var s, slots := Step(k, TimerStart(millis)), k.timers.slots;
            && s == k.(timers := T.TimerTable(s.timers.slots, id), cpu := k.cpu.(eax := Num(id)))
            && id != 0 && (forall i :: 0 <= i < |slots| && !slots[i].finished ==> slots[i].id != id)
            && FreeTimerSlot(slots, j) && j < |s.timers.slots|
            && |s.timers.slots| == (if j < |slots| then |slots| else |slots| + 1)
            && s.timers.slots[j] == T.Timer(id := id, uid := k.procs[r].fixed.uid, left := millis, finished := false)
            && (forall i :: 0 <= i < |slots| && i != j ==> s.timers.slots[i] == slots[i])
  {
    CallerIs(k, r);
    id, j := StartedTable(k.timers, k.procs[r].fixed.uid, millis);
    assert Step(k, TimerStart(millis)).timers == T.StartTimer(k.timers, k.procs[r].fixed.uid, millis);
  }

  lemma StartedTable(tt: T.TimerTable, uid: nat, millis: u32) returns (id: u32, j: nat)
    requires T.IdsValid(tt) && tt.ids + 1 < WORD
    ensures var r := T.StartTimer(tt, uid, millis);
            && id != 0 && r.ids == id
            && (forall i :: 0 <= i < |tt.slots| && !tt.slots[i].finished ==> tt.slots[i].id != id)
            && FreeTimerSlot(tt.slots, j) && j < |r.slots|
            && |r.slots| == (if j < |tt.slots| then |tt.slots| else |tt.slots| + 1)
            && r.slots[j] == T.Timer(id, uid, millis, false)
            && (forall i :: 0 <= i < |tt.slots| && i != j ==> r.slots[i] == tt.slots[i])
  {
    id := tt.ids + 1;
    assert Wrap(tt.ids + 1) == id;
    j := match First(tt.slots, T.IsFinished) case Some(i) => i case None => |tt.slots|;
    assert forall i :: 0 <= i < |tt.slots| && !tt.slots[i].finished ==> T.UnfinishedAt(tt.slots, i);
  }

  /** timer_cancel finishes exactly the caller's timers with the number, or all of them for 0. */
  lemma TimerCancelFinishes(k: Kernel, id: u32, r: nat)
    requires Inv(k) && Caller(k, r)
    ensures var s := Step(k, TimerCancel(id));
            && s == k.(timers := s.timers) && s.timers.ids == k.timers.ids && |s.timers.slots| == |k.timers.slots|
            && forall j :: 0 <= j < |k.timers.slots| ==>
                 var t := k.timers.slots[j];
                 s.timers.slots[j]
                 == if t.uid == k.procs[r].fixed.uid && (id == 0 || t.id == id) then t.(finished := true) else t
  {
    CallerIs(k, r);
  }

  /** The number timer_start answers with, given back to timer_cancel, ends that timer and no other. */
  lemma CancelByAnswer(k: Kernel, millis: u32, r: nat) returns (id: u32, j: nat)
    requires Inv(k) && Caller(k, r) && T.IdsValid(k.timers) && k.timers.ids + 1 < WORD
    ensures var s := Step(k, TimerStart(millis));
            && s.cpu.eax == Num(id) && j < |s.timers.slots| && !s.timers.slots[j].finished
            && Safe(s, TimerCancel(id))
            && var c := Step(s, TimerCancel(id));
               && |c.timers.slots| == |s.timers.slots| && c.timers.slots[j].finished
               && (forall i :: 0 <= i < |s.timers.slots| && i != j ==>
                     c.timers.slots[i].finished == s.timers.slots[i].finished)
  {
    id, j := TimerStartAnswers(k, millis, r);
    CallerIs(k, r);
    StepKeepsInv(k, TimerStart(millis));
    var s := Step(k, TimerStart(millis));
    CallerIs(s, r);
    TimerCancelFinishes(s, id, r);
    forall i | 0 <= i < |s.timers.slots| && i != j && !s.timers.slots[i].finished
      ensures s.timers.slots[i].id != id
    {
      assert s.timers.slots[i] == k.timers.slots[i];
    }
  }
}
