/**
 * The scheduler, event and timer state of TomatKernel as one value, and what each interrupt
 * handler or syscall does to it (process.c and timer.c, which call each other).
 */
module Kernel {
  import opened Words
  import opened Timers
  import opened Processes

  /**
   * The static variables of process.c and timer.c. `cpu` is the register frame the current
   * interrupt will return to and `loaded` the page directory last handed to paging_set.
   */
  datatype Kernel = Kernel(
    procs: seq<Process>, lastUid: nat, canUpdate: bool, enabled: bool, updates: nat,
    timers: TimerTable, cpu: Registers, loaded: nat)

  /**
   * `process_init`: the table holds ALIVE alone, parked, and nothing is scheduled yet. What
   * `initialize_alive` does not set keeps what the memory held before.
   */
  function Boot(pd: nat, stack: u32, main: u32, regs: Registers, left: Process): Kernel {
    var alive := Process(Fixed(pd, main, stack, USER_ALIVE, ALIVE, 0, false, false), Suspended, true,
                         left.registers, left.currentEvent, [], left.suspendedTime, left.runningTime);
    Kernel([alive], 0, false, false, 0, TimerTable([], 0), regs, pd)
  }

  // ---------------------------------------------------------------- scheduler

  /** `process_switch(regs, current, newprocess)`. */
  function Switch(k: Kernel, current: Option<nat>, n: nat): (r: Kernel)
    requires n < |k.procs|
    requires current.Some? ==> current.value < |k.procs| && current.value != n
    ensures |r.procs| == |k.procs|
  {
    var ps := match current
              case Some(c) => k.procs[c := k.procs[c].(registers := k.cpu, status := Normal)]
              case None => k.procs;
    var p := Entered(ps[n]);
    k.(procs := ps[n := p], cpu := p.registers, loaded := p.fixed.pd)
  }

  /** Switch when nothing is running: to the pick, or else to ALIVE from its beginning. */
  function SwitchFromIdle(k: Kernel): (r: Kernel)
    requires |k.procs| > 0
    ensures |r.procs| == |k.procs|
  {
    match Pick(k.procs)
    case Some(n) => Switch(k, None, n)
    case None => Switch(k.(procs := k.procs[ALIVE := k.procs[ALIVE].(started := false)]), None, ALIVE)
  }

  predicate OverQuantum(p: Process, count: nat)
    requires count > 0
  {
    p.runningTime > 1000 / count + p.fixed.priority * 100
  }

  /** With process r running: switch to the pick once r has used up its quantum. */
  function CheckQuantum(k: Kernel, r: nat, count: nat): (s: Kernel)
    requires r < |k.procs| && k.procs[r].status.Running? && count > 0
    ensures |s.procs| == |k.procs|
  {
    if OverQuantum(k.procs[r], count) && Pick(k.procs).Some? then Switch(k, Some(r), Pick(k.procs).value) else k
  }

  /** Every entry has been charged the time since the last update that was not skipped. */
  function Ticked(k: Kernel): Kernel {
    k.(procs := TickAll(k.procs, k.updates * 10 + 10), updates := 0)
  }

  /** `scheduler_update` once past its two guards, called by the timer. */
  function TickSchedule(k: Kernel): (r: Kernel)
    requires |k.procs| > 0
    ensures |r.procs| == |k.procs|
  {
    var t := Ticked(k);
    match LastRunning(k.procs)
    case None => SwitchFromIdle(t)
    case Some(r) =>
      LiveCountPositive(k.procs, r);
      CheckQuantum(t, r, LiveCount(k.procs))
  }

  function SchedulerUpdate(k: Kernel, fromTimer: bool): (r: Kernel)
    requires |k.procs| > 0
    ensures |r.procs| == |k.procs|
  {
    if !k.enabled then k
    else if !k.canUpdate then if fromTimer then k.(updates := k.updates + 1) else k
    else if fromTimer then TickSchedule(k)
    else SwitchFromIdle(k)
  }

  // ---------------------------------------------------------------- process life

  /** `process_start`: the first dead slot is reused, and then `can_update` stays false. */
  function StartProcess(k: Kernel, p: Process): Kernel {
    var q := p.(started := false, status := Normal);
    match First(k.procs, IsDead)
    case Some(i) => k.(procs := k.procs[i := q], canUpdate := false)
    case None => k.(procs := k.procs + [q], canUpdate := true)
  }

  /** `process_kill` before it considers rescheduling. */
  function Bury(k: Kernel, i: nat): Kernel
    requires i < |k.procs|
  {
    var p := k.procs[i];
    k.(loaded := if p.status.Running? then k.procs[ALIVE].fixed.pd else k.loaded,
       procs := k.procs[i := p.(status := Dead, events := [])],
       timers := k.timers.(slots := CancelSlots(k.timers.slots, p.fixed.uid, 0)),
       canUpdate := true)
  }

  // ---------------------------------------------------------------- timer interrupt

  function TimerEvent(t: Timer): Event {
    Event(EventTimer, t.id, 0, 0, 0)
  }

  /** Every due timer finds a live owner, so the handler does not panic. */
  predicate Deliverable(ps: seq<Process>, due: seq<Timer>) {
    forall t :: t in due ==> FindUid(ps, t.uid).Some?
  }

  function PushTimer(ps: seq<Process>, t: Timer): seq<Process> {
    match FindUid(ps, t.uid)
    case Some(i) => PushEvent(ps, i, TimerEvent(t))
    case None => ps
  }

  /** Push one event for each timer in `due`, in order. */
  function PushTimers(ps: seq<Process>, due: seq<Timer>): (r: seq<Process>)
    ensures |r| == |ps|
  {
    if due == [] then ps
    else PushTimer(PushTimers(ps, due[..|due| - 1]), due[|due| - 1])
  }

  // ---------------------------------------------------------------- operations

  datatype Op =
    | StartAlive
    | Spawn(main: u32, user: u32, foreground: bool, core: bool, pd: nat, stack: u32)
    | Pull
    | Queue(event: Event, target: u32)
    | Kill(victim: u32)
    | Key(event: Event)
    | TimerIrq
    | TimerStart(millis: u32)
    | TimerCancel(id: u32)
    | User(regs: Registers)

  function Current(k: Kernel): Option<nat> {
    First(k.procs, IsRunning)
  }

  /** Slot a `queue_event` by process r reaches, if it reaches one it may write to. */
  function QueueTarget(k: Kernel, r: nat, target: u32): Option<nat>
    requires r < |k.procs|
  {
    if target == 0 then Some(r)
    else match FindUid(k.procs, target)
         case Some(i) => if i == r || HasPermission(k.procs[i].fixed.user, k.procs[r].fixed.user) then Some(i) else None
         case None => None
  }

  /** Slot a `process_kill` syscall by process r ends. The permission test is the inverted one of the code. */
  function KillTarget(k: Kernel, r: nat, victim: u32): Option<nat>
    requires r < |k.procs|
    requires victim == 0 || FindUid(k.procs, victim).Some?
  {
    if victim == 0 then Some(r)
    else
      var i := FindUid(k.procs, victim).value;
      if HasPermission(k.procs[i].fixed.user, k.procs[r].fixed.user) then None else Some(i)
  }

  /** The handler neither panics nor follows a null pointer. */
  predicate Safe(k: Kernel, op: Op) {
    && |k.procs| > 0
    && match op
       case StartAlive => true
       case Spawn(_, _, _, _, _, _) => k.lastUid + 1 < 0x8000_0000
       case Pull => Current(k).Some?
       case Queue(_, _) => Current(k).Some?
       case Kill(victim) => Current(k).Some? && (victim == 0 || FindUid(k.procs, victim).Some?)
       case Key(_) => First(k.procs, IsLiveCore).Some?
       case TimerIrq => Deliverable(k.procs, DueTimers(k.timers.slots))
       case TimerStart(_) => Current(k).Some?
       case TimerCancel(_) => Current(k).Some?
       case User(_) => true
  }

  function Enable(k: Kernel): Kernel
    requires |k.procs| > 0
  {
    k.(enabled := true, loaded := k.procs[ALIVE].fixed.pd)
  }

  /** `process_create`, the core mark kernel_boot adds, and `process_start`. */
  function CreateAndStart(k: Kernel, op: Op): Kernel
    requires op.Spawn?
  {
    var uid := k.lastUid + 1;
    StartProcess(k.(lastUid := uid),
                 Created(uid, op.main, op.user, op.foreground, op.core, op.pd, op.stack))
  }

  /** The running process takes its first event at once. */
  function Deliver(k: Kernel, r: nat): Kernel
    requires r < |k.procs| && k.procs[r].events != []
  {
    k.(procs := k.procs[r := PullFront(k.procs[r])], cpu := k.cpu.(eax := CurrentEventOf(r)))
  }

  /** The running process waits inside `pull_event`. */
  function Suspend(k: Kernel, r: nat): Kernel
    requires r < |k.procs|
  {
    k.(procs := k.procs[r := k.procs[r].(status := Suspended, registers := k.cpu)])
  }

  /** Due timers have pushed their events; every other timer is ten milliseconds shorter. */
  function Fired(k: Kernel): Kernel {
    k.(procs := PushTimers(k.procs, DueTimers(k.timers.slots)),
       timers := k.timers.(slots := TickSlots(k.timers.slots)))
  }

  /** What a handler has done when it reaches its call of `scheduler_update`, or all of it without one. */
  function Prepare(k: Kernel, op: Op): (r: Kernel)
    requires Safe(k, op)
    ensures |k.procs| <= |r.procs|
  {
    match op
    case StartAlive => if k.enabled then k else Enable(k)
    case Spawn(_, _, _, _, _, _) => CreateAndStart(k, op)
    case Pull =>
      var r := Current(k).value;
      if k.procs[r].events != [] then Deliver(k, r) else Suspend(k, r)
    case Queue(event, target) =>
      (match QueueTarget(k, Current(k).value, target)
       case Some(i) => k.(procs := PushEvent(k.procs, i, event))
       case None => k)
    case Kill(victim) =>
      (match KillTarget(k, Current(k).value, victim)
       case Some(i) => Bury(k, i)
       case None => k)
    case Key(event) => k.(procs := PushEvent(k.procs, First(k.procs, IsLiveCore).value, event))
    case TimerIrq => Fired(k)
    case TimerStart(millis) =>
      var tt := StartTimer(k.timers, k.procs[Current(k).value].fixed.uid, millis);
      k.(timers := tt, cpu := k.cpu.(eax := Num(tt.ids)))
    case TimerCancel(id) =>
      k.(timers := k.timers.(slots := CancelSlots(k.timers.slots, k.procs[Current(k).value].fixed.uid, id)))
    case User(regs) => k.(cpu := regs)
  }

  /** Whether the handler calls `scheduler_update`. */
  predicate Reschedules(k: Kernel, op: Op)
    requires Safe(k, op)
  {
    match op
    case StartAlive => !k.enabled
    case Pull => k.procs[Current(k).value].events == []
    case Kill(victim) =>
      var v := KillTarget(k, Current(k).value, victim);
      v.Some? && k.procs[v.value].status.Running?
    case TimerIrq => true
    case _ => false
  }

  function Handle(k: Kernel, op: Op): (r: Kernel)
    requires Safe(k, op)
    ensures |k.procs| <= |r.procs|
  {
    if Reschedules(k, op) then SchedulerUpdate(Prepare(k, op), op.TimerIrq?) else Prepare(k, op)
  }

  /** The first thing ALIVE does when it is entered: count as suspended again. */
  function Park(k: Kernel): Kernel {
    if |k.procs| > 0 && k.procs[ALIVE].status.Running? then
      k.(procs := k.procs[ALIVE := k.procs[ALIVE].(status := Suspended, started := true)])
    else k
  }

  function Step(k: Kernel, op: Op): (r: Kernel)
    requires Safe(k, op)
    ensures |k.procs| <= |r.procs|
  {
    Park(Handle(k, op))
  }

  // ---------------------------------------------------------------- runs

  /** Every handler of the run completes. */
  predicate CanRun(k: Kernel, ops: seq<Op>)
    decreases |ops|
  {
    ops == [] || (Safe(k, ops[0]) && CanRun(Step(k, ops[0]), ops[1..]))
  }

  function Run(k: Kernel, ops: seq<Op>): Kernel
    requires CanRun(k, ops)
    decreases |ops|
  {
    if ops == [] then k else Run(Step(k, ops[0]), ops[1..])
  }

  /** Timer interrupts in a run. */
  function TickCount(ops: seq<Op>): nat {
    if ops == [] then 0 else (if ops[0].TimerIrq? then 1 else 0) + TickCount(ops[1..])
  }

  // ---------------------------------------------------------------- pushing

  /** Pushing events moves nothing but queues, so lookups by uid are unaffected. */
  lemma {:induction false} PushTimersKeepLookups(ps: seq<Process>, due: seq<Timer>, uid: nat)
    ensures FindUid(PushTimers(ps, due), uid) == FindUid(ps, uid)
    ensures forall i :: 0 <= i < |ps| ==>
              PushTimers(ps, due)[i] == ps[i].(events := PushTimers(ps, due)[i].events)
  {
    if due != [] {
      PushTimersKeepLookups(ps, due[..|due| - 1], uid);
    }
    var r := PushTimers(ps, due);
    assert forall i :: 0 <= i < |ps| ==> r[i] == ps[i].(events := r[i].events);
    var P := (p: Process) => IsLive(p) && p.fixed.uid == uid;
    assert forall i :: 0 <= i < |ps| ==> P(r[i]) == P(ps[i]);
    match First(ps, P) {
      case Some(i) => FirstIs(r, P, i);
      case None => assert First(r, P).None?;
    }
  }

  /** Taking timer i into account adds it to the due list, and pushes its event last, when it is due. */
  lemma DueGrows(ps: seq<Process>, slots: seq<Timer>, i: nat)
    requires i < |slots|
    ensures var due := DueTimers(slots[..i]);
            DueTimers(slots[..i + 1]) == (if Due(slots[i]) then due + [slots[i]] else due)
            && PushTimers(ps, DueTimers(slots[..i + 1]))
               == if Due(slots[i]) then PushTimer(PushTimers(ps, due), slots[i]) else PushTimers(ps, due)
  {
    var due := DueTimers(slots[..i]);
    assert slots[..i + 1][..i] == slots[..i];
    assert (due + [slots[i]])[..|due|] == due;
    assert due + [] == due;
  }

  lemma {:induction false} DueContains(slots: seq<Timer>, i: nat)
    requires i < |slots| && Due(slots[i])
    ensures slots[i] in DueTimers(slots)
  {
    if i < |slots| - 1 {
      DueContains(slots[..|slots| - 1], i);
    }
  }

  /** What taking timer i into account means for the events pushed and for the panic. */
  lemma FireOne(ps: seq<Process>, slots: seq<Timer>, i: nat)
    requires i < |slots| && Deliverable(ps, DueTimers(slots[..i]))
    ensures var pushed := PushTimers(ps, DueTimers(slots[..i]));
            && FindUid(pushed, slots[i].uid) == FindUid(ps, slots[i].uid)
            && PushTimers(ps, DueTimers(slots[..i + 1]))
               == if Due(slots[i]) then PushTimer(pushed, slots[i]) else pushed
    ensures if Due(slots[i]) && FindUid(ps, slots[i].uid).None? then !Deliverable(ps, DueTimers(slots))
            else Deliverable(ps, DueTimers(slots[..i + 1]))
  {
    PushTimersKeepLookups(ps, DueTimers(slots[..i]), slots[i].uid);
    DueGrows(ps, slots, i);
    if Due(slots[i]) {
      DueContains(slots, i);
    }
  }

  // ---------------------------------------------------------------- the can_update flag

  lemma SwitchFlag(k: Kernel, current: Option<nat>, n: nat, b: bool)
    requires n < |k.procs|
    requires current.Some? ==> current.value < |k.procs| && current.value != n
    ensures Switch(k.(canUpdate := b), current, n) == Switch(k, current, n).(canUpdate := b)
  {
  }

  lemma IdleFlag(k: Kernel, b: bool)
    requires |k.procs| > 0
    ensures SwitchFromIdle(k.(canUpdate := b)) == SwitchFromIdle(k).(canUpdate := b)
  {
    match Pick(k.procs)
    case Some(n) => SwitchFlag(k, None, n, b);
    case None => SwitchFlag(k.(procs := k.procs[ALIVE := k.procs[ALIVE].(started := false)]), None, ALIVE, b);
  }

  lemma CheckFlag(k: Kernel, r: nat, count: nat, b: bool)
    requires r < |k.procs| && k.procs[r].status.Running? && count > 0
    ensures CheckQuantum(k.(canUpdate := b), r, count) == CheckQuantum(k, r, count).(canUpdate := b)
  {
    if Pick(k.procs).Some? {
      SwitchFlag(k, Some(r), Pick(k.procs).value, b);
    }
  }

  lemma TickedIs(k: Kernel, ps: seq<Process>, passed: int)
    requires passed == k.updates * 10 + 10 && ps == TickAll(k.procs, passed)
    ensures Ticked(k) == k.(procs := ps, updates := 0)
  {
  }

  lemma TickedFlag(k: Kernel, b: bool)
    ensures Ticked(k.(canUpdate := b)) == Ticked(k).(canUpdate := b)
  {
    var ps := TickAll(k.procs, k.updates * 10 + 10);
    assert Ticked(k) == k.(procs := ps, updates := 0);
  }

  /** Scheduling neither reads nor writes `can_update` between the two places that set it. */
  lemma FlagIsPassive(k: Kernel, b: bool)
    requires |k.procs| > 0
    ensures SwitchFromIdle(k.(canUpdate := b)) == SwitchFromIdle(k).(canUpdate := b)
    ensures TickSchedule(k.(canUpdate := b)) == TickSchedule(k).(canUpdate := b)
  {
    IdleFlag(k, b);
    var t := Ticked(k);
    TickedFlag(k, b);
    match LastRunning(k.procs)
    case None => IdleFlag(t, b);
    case Some(r) =>
      LiveCountPositive(k.procs, r);
      CheckFlag(t, r, LiveCount(k.procs), b);
  }
}
