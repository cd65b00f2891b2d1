/** Events: every event pushed to a live process reaches it exactly once and in order. */
module Delivery {
  import opened Words
  import opened Timers
  import opened Processes
  import opened Kernel
  import opened KernelInvariant

  // ---------------------------------------------------------------- what goes in and what comes out

  /** Events of the due timers that slot i owns, in firing order. */
  function TimerEventsFor(ps: seq<Process>, due: seq<Timer>, i: nat): seq<Event> {
    if due == [] then []
    else
      var t := due[|due| - 1];
      TimerEventsFor(ps, due[..|due| - 1], i) + (if FindUid(ps, t.uid) == Some(i) then [TimerEvent(t)] else [])
  }

  /** Slot i holds the first live process with this uid. */
  predicate FirstLive(ps: seq<Process>, uid: nat, i: nat) {
    && i < |ps| && !ps[i].status.Dead? && ps[i].fixed.uid == uid
    && forall j :: 0 <= j < i ==> ps[j].status.Dead? || ps[j].fixed.uid != uid
  }

  /** Slot i holds the first live core process. */
  predicate FirstCore(ps: seq<Process>, i: nat) {
    && i < |ps| && !ps[i].status.Dead? && ps[i].fixed.core
    && forall j :: 0 <= j < i ==> ps[j].status.Dead? || !ps[j].fixed.core
  }

  /** The user of process r ranks no lower than that of process i. */
  predicate Outranks(ps: seq<Process>, r: nat, i: nat) {
    r < |ps| && i < |ps| && ps[r].fixed.user % 256 >= ps[i].fixed.user % 256
  }

  /** An event queued by process r for `target` is for slot i: itself, or a process it may write to. */
  predicate Reaches(ps: seq<Process>, r: nat, target: u32, i: nat) {
    if target == 0 then i == r else FirstLive(ps, target, i) && (i == r || Outranks(ps, r, i))
  }

  /** Events of the timers owned by uid that have at most ten milliseconds left, in table order. */
  function ExpiredEvents(slots: seq<Timer>, uid: nat): seq<Event> {
    if slots == [] then []
    else
      var t := slots[|slots| - 1];
      ExpiredEvents(slots[..|slots| - 1], uid)
      + if !t.finished && t.left <= 10 && t.uid == uid then [Event(EventTimer, t.id, 0, 0, 0)] else []
  }

  /** Events one operation pushes to slot i: queue_event by the running process, the keyboard, or timers firing. */
  ghost function PushedAt(k: Kernel, op: Op, i: nat): seq<Event> {
    match op
    case Queue(event, target) =>
      if exists r: nat :: r < |k.procs| && k.procs[r].status.Running? && Reaches(k.procs, r, target, i)
      then [event] else []
    case Key(event) => if FirstCore(k.procs, i) then [event] else []
    case TimerIrq =>
      if i < |k.procs| && !k.procs[i].status.Dead? then ExpiredEvents(k.timers.slots, k.procs[i].fixed.uid) else []
    case _ => []
  }

  lemma FirstLiveIs(ps: seq<Process>, uid: nat, i: nat)
    ensures FindUid(ps, uid) == Some(i) <==> FirstLive(ps, uid, i)
  {
    if FirstLive(ps, uid, i) {
      FirstIs(ps, p => IsLive(p) && p.fixed.uid == uid, i);
    }
  }

  /** Who a queued event is for, in the table's own terms. */
  lemma QueueTargetIs(k: Kernel, r: nat, target: u32, i: nat)
    requires r < |k.procs|
    ensures QueueTarget(k, r, target) == Some(i) <==> Reaches(k.procs, r, target, i)
  {
    FirstLiveIs(k.procs, target, i);
    if FindUid(k.procs, target).Some? {
      FirstLiveIs(k.procs, target, FindUid(k.procs, target).value);
    }
  }

  lemma FirstCoreIs(ps: seq<Process>, i: nat)
    ensures First(ps, IsLiveCore) == Some(i) <==> FirstCore(ps, i)
  {
    if FirstCore(ps, i) {
      FirstIs(ps, IsLiveCore, i);
    }
  }

  lemma {:induction false} ExpiredAreDue(ps: seq<Process>, slots: seq<Timer>, i: nat)
    requires i < |ps| && forall j, l :: 0 <= j < |ps| && 0 <= l < |ps| && ps[j].fixed.uid == ps[l].fixed.uid ==> j == l
    ensures TimerEventsFor(ps, DueTimers(slots), i)
            == if IsLive(ps[i]) then ExpiredEvents(slots, ps[i].fixed.uid) else []
  {
    if slots != [] {
      var front, t := slots[..|slots| - 1], slots[|slots| - 1];
      ExpiredAreDue(ps, front, i);
      DueIffTenOrLess(t);
      FirstLiveIs(ps, t.uid, i);
      var due := DueTimers(front);
      if Due(t) {
        assert (due + [t])[..|due|] == due;
      } else {
        assert due + [] == due;
      }
      assert ExpiredEvents(front, ps[i].fixed.uid) + [] == ExpiredEvents(front, ps[i].fixed.uid);
      assert TimerEventsFor(ps, due, i) + [] == TimerEventsFor(ps, due, i);
    }
  }

  /** What the handlers push is what these definitions say. */
  lemma PushedIs(k: Kernel, op: Op, i: nat)
    requires Inv(k) && Safe(k, op) && i < |k.procs|
    ensures op.Queue? ==>
              PushedAt(k, op, i) == if QueueTarget(k, Current(k).value, op.target) == Some(i) then [op.event] else []
    ensures op.Key? ==> PushedAt(k, op, i) == if First(k.procs, IsLiveCore) == Some(i) then [op.event] else []
    ensures op.TimerIrq? ==> PushedAt(k, op, i) == TimerEventsFor(k.procs, DueTimers(k.timers.slots), i)
  {
    match op {
      case Queue(_, target) => QueueTargetIs(k, Current(k).value, target, i);
      case Key(_) => FirstCoreIs(k.procs, i);
      case TimerIrq => ExpiredAreDue(k.procs, k.timers.slots, i);
      case _ =>
    }
  }

  /** The process in slot i asked for an event and still has the processor in r. */
  predicate PulledDirectly(k: Kernel, op: Op, r: Kernel, i: nat) {
    op.Pull? && Current(k) == Some(i) && i < |r.procs| && r.procs[i].status.Running?
  }

  /** The process in slot i, waiting for an event, has become runnable in r. */
  predicate Woken(k: Kernel, op: Op, r: Kernel, i: nat) {
    op.TimerIrq? && i < |k.procs| && i < |r.procs| && k.procs[i].status.Suspended? && !r.procs[i].status.Suspended?
  }

  /** Events the operation from k to r hands to slot i: what its `current_event` holds afterwards. */
  function DeliveredAt(k: Kernel, op: Op, r: Kernel, i: nat): seq<Event> {
    if PulledDirectly(k, op, r, i) || Woken(k, op, r, i) then [r.procs[i].currentEvent] else []
  }

  ghost function Pushed(k: Kernel, ops: seq<Op>, i: nat): seq<Event>
    requires CanRun(k, ops)
    decreases |ops|
  {
    if ops == [] then [] else PushedAt(k, ops[0], i) + Pushed(Step(k, ops[0]), ops[1..], i)
  }

  function Delivered(k: Kernel, ops: seq<Op>, i: nat): seq<Event>
    requires CanRun(k, ops)
    decreases |ops|
  {
    if ops == [] then []
    else DeliveredAt(k, ops[0], Step(k, ops[0]), i) + Delivered(Step(k, ops[0]), ops[1..], i)
  }

  // ---------------------------------------------------------------- one slot through an update

  /** Whether an update gets past its guards. */
  predicate Active(k: Kernel) {
    k.enabled && k.canUpdate
  }

  /** Slot i as the scan sees it: charged and possibly woken if the timer came, otherwise untouched. */
  function SlotBefore(k: Kernel, fromTimer: bool, i: nat): Process
    requires i < |k.procs|
  {
    if Active(k) && fromTimer then TickProcess(k.procs[i], i, k.updates * 10 + 10) else k.procs[i]
  }

  /** The scheduler leaves a slot as the scan saw it, or enters it, or takes the processor from it. */
  ghost predicate Moved(b: Process, r: Process, cpu: Registers, cpu': Registers, fromTimer: bool) {
    || r == b
    || (r == Entered(b) && b.status.Normal? && cpu' == r.registers)
    || (r == b.(registers := cpu, status := Normal) && b.status.Running? && fromTimer)
  }

  lemma UpdateSlot(k: Kernel, fromTimer: bool, i: nat)
    requires Schedulable(k, fromTimer) && 0 < i < |k.procs|
    ensures var r := SchedulerUpdate(k, fromTimer);
            Moved(SlotBefore(k, fromTimer, i), r.procs[i], k.cpu, r.cpu, fromTimer)
  {
    if Active(k) {
      var t := if fromTimer then Ticked(k) else k;
      if fromTimer {
        TickedShape(k);
      }
      if fromTimer && LastRunning(k.procs).Some? {
        LiveCountPositive(k.procs, LastRunning(k.procs).value);
        CheckSlot(t, LastRunning(k.procs).value, LiveCount(k.procs), i);
      } else {
        IdleSlot(t, i);
      }
    }
  }

  lemma IdleSlot(k: Kernel, i: nat)
    requires 0 < i < |k.procs|
    ensures var r := SwitchFromIdle(k);
            Moved(k.procs[i], r.procs[i], k.cpu, r.cpu, false)
  {
  }

  lemma CheckSlot(k: Kernel, h: nat, count: nat, i: nat)
    requires h < |k.procs| && k.procs[h].status.Running? && count > 0 && 0 < i < |k.procs|
    ensures var r := CheckQuantum(k, h, count);
            Moved(k.procs[i], r.procs[i], k.cpu, r.cpu, true)
  {
  }

  // ---------------------------------------------------------------- one operation

  lemma {:induction false} PushTimersQueue(ps: seq<Process>, due: seq<Timer>, i: nat)
    requires i < |ps|
    ensures PushTimers(ps, due)[i] == ps[i].(events := ps[i].events + TimerEventsFor(ps, due, i))
  {
    if due != [] {
      var front := due[..|due| - 1];
      PushTimersQueue(ps, front, i);
      PushTimersKeepLookups(ps, front, due[|due| - 1].uid);
    }
  }

  /** What a live slot looks like once its handler is about to schedule, unless the handler ends it. */
  ghost predicate PreparedSlot(p: Process, pushed: seq<Event>, q: Process, cpu: Registers, pulls: bool) {
    if pulls then p.status.Running? && pushed == []
                  && q == if p.events != [] then PullFront(p) else p.(status := Suspended, registers := cpu)
    else q == p.(events := p.events + pushed)
  }

  /**
   * What a handler does to a live slot before scheduling: the puller takes or waits, the rest only
   * gain events, or die.
   */
  lemma PrepareSlot(k: Kernel, op: Op, i: nat)
    requires Inv(k) && Safe(k, op) && i < |k.procs| && IsLive(k.procs[i])
    ensures var q := Prepare(k, op).procs[i];
            || PreparedSlot(k.procs[i], PushedAt(k, op, i), q, k.cpu, op.Pull? && Current(k) == Some(i))
            || (op.Kill? && q == k.procs[i].(status := Dead, events := []))
  {
    var p := k.procs[i];
    assert p.events + [] == p.events;
    PushedIs(k, op, i);
    match op {
      case TimerIrq => PushTimersQueue(k.procs, DueTimers(k.timers.slots), i);
      case Spawn(_, _, _, _, _, _) => SpawnSlot(k, op, i);
      case Kill(victim) => KillSlot(k, victim, i);
      case StartAlive =>
      case Pull =>
      case Queue(_, _) =>
      case Key(_) =>
      case TimerStart(_) =>
      case TimerCancel(_) =>
      case User(_) =>
    }
  }

  lemma SpawnSlot(k: Kernel, op: Op, i: nat)
    requires op.Spawn? && Safe(k, op) && i < |k.procs| && IsLive(k.procs[i])
    ensures Prepare(k, op).procs[i] == k.procs[i]
  {
    assert First(k.procs, IsDead) != Some(i);
  }

  lemma KillSlot(k: Kernel, victim: u32, i: nat)
    requires Safe(k, Kill(victim)) && i < |k.procs|
    ensures var q := Prepare(k, Kill(victim)).procs[i];
            q == k.procs[i] || q == k.procs[i].(status := Dead, events := [])
  {
  }

  lemma MovedKeeps(s: Kernel, r: Kernel, i: nat, fromTimer: bool)
    requires i < |s.procs| && i < |r.procs|
    requires Moved(SlotBefore(s, fromTimer, i), r.procs[i], s.cpu, r.cpu, fromTimer)
    ensures r.procs[i].fixed == s.procs[i].fixed && (IsLive(r.procs[i]) <==> IsLive(s.procs[i]))
  {
  }

  /** A live slot keeps its uid. */
  lemma LiveSlotKeepsUid(k: Kernel, op: Op, i: nat)
    requires Inv(k) && Safe(k, op) && 0 < i < |k.procs| && IsLive(k.procs[i])
    ensures Step(k, op).procs[i].fixed == k.procs[i].fixed
  {
    PrepareSlot(k, op, i);
    StepSlot(k, op, i);
    MovedKeeps(Prepare(k, op), Step(k, op), i, op.TimerIrq?);
  }

  lemma UpdateKeepsUid(s: Kernel, fromTimer: bool)
    requires |s.procs| > 0
    ensures Park(SchedulerUpdate(s, fromTimer)).lastUid == s.lastUid
  {
  }

  lemma LastUidGrows(k: Kernel, op: Op)
    requires Safe(k, op)
    ensures Step(k, op).lastUid >= k.lastUid
  {
    if Reschedules(k, op) {
      UpdateKeepsUid(Prepare(k, op), op.TimerIrq?);
    }
  }

  /** A dead slot stays dead or is given a uid never used before. */
  lemma DeadSlotStep(k: Kernel, op: Op, i: nat)
    requires Inv(k) && Safe(k, op) && 0 < i < |k.procs| && IsDead(k.procs[i])
    ensures IsDead(Step(k, op).procs[i]) || Step(k, op).procs[i].fixed.uid == k.lastUid + 1
  {
    DeadPrepare(k, op, i);
    StepSlot(k, op, i);
    MovedKeeps(Prepare(k, op), Step(k, op), i, op.TimerIrq?);
  }

  lemma DeadPrepare(k: Kernel, op: Op, i: nat)
    requires Inv(k) && Safe(k, op) && i < |k.procs| && IsDead(k.procs[i])
    ensures IsDead(Prepare(k, op).procs[i]) || Prepare(k, op).procs[i].fixed.uid == k.lastUid + 1
  {
    match op {
      case TimerIrq => PushTimersQueue(k.procs, DueTimers(k.timers.slots), i);
      case StartAlive =>
      case Spawn(_, _, _, _, _, _) =>
      case Pull =>
      case Queue(_, _) =>
      case Kill(_) =>
      case Key(_) =>
      case TimerStart(_) =>
      case TimerCancel(_) =>
      case User(_) =>
    }
  }

  /** Only a start adds a slot, and it gives it the next uid. */
  lemma TableLength(k: Kernel, op: Op)
    requires Safe(k, op)
    ensures !op.Spawn? ==> |Step(k, op).procs| == |k.procs|
    ensures op.Spawn? ==>
              forall i :: |k.procs| <= i < |Step(k, op).procs| ==> Step(k, op).procs[i].fixed.uid == k.lastUid + 1
  {
  }

  lemma GoneStep(k: Kernel, op: Op, uid: nat)
    requires Inv(k) && Safe(k, op) && uid <= k.lastUid && FindUid(k.procs, uid).None?
    ensures FindUid(Step(k, op).procs, uid).None?
  {
    StepKeepsInv(k, op);
    assert LiveAt(k.procs, ALIVE);
    LiveFound(k.procs, ALIVE);
    TableLength(k, op);
    var r := Step(k, op).procs;
    forall i | 0 <= i < |r|
      ensures !(IsLive(r[i]) && r[i].fixed.uid == uid)
    {
      if 0 < i < |k.procs| && IsLive(k.procs[i]) {
        LiveSlotKeepsUid(k, op, i);
      } else if 0 < i < |k.procs| {
        DeadSlotStep(k, op, i);
      }
    }
  }

  /** A process that has gone does not come back: its uid never again names a live process. */
  lemma {:induction false} GoneForGood(k: Kernel, ops: seq<Op>, uid: nat)
    requires Inv(k) && CanRun(k, ops) && uid <= k.lastUid && FindUid(k.procs, uid).None?
    ensures FindUid(Run(k, ops).procs, uid).None?
    decreases |ops|
  {
    if ops != [] {
      StepKeepsInv(k, ops[0]);
      LastUidGrows(k, ops[0]);
      GoneStep(k, ops[0], uid);
      GoneForGood(Step(k, ops[0]), ops[1..], uid);
    }
  }

  /** So a dead slot never holds the same process again. */
  lemma StaysDead(k: Kernel, ops: seq<Op>, i: nat)
    requires Inv(k) && CanRun(k, ops) && 0 < i < |k.procs| && IsDead(k.procs[i])
    ensures i < |Run(k, ops).procs|
            ==> IsDead(Run(k, ops).procs[i]) || Run(k, ops).procs[i].fixed.uid != k.procs[i].fixed.uid
  {
    var uid := k.procs[i].fixed.uid;
    assert FindUid(k.procs, uid).None?;
    GoneForGood(k, ops, uid);
    var r := Run(k, ops).procs;
    if i < |r| && IsLive(r[i]) && r[i].fixed.uid == uid {
      LiveFound(r, i);
    }
  }

  /** A slot through the end of a handler: an update or none, and ALIVE parked. */
  lemma SettleSlot(s: Kernel, rescheduled: bool, fromTimer: bool, i: nat)
    requires Inv(s) && 0 < i < |s.procs| && (fromTimer ==> rescheduled)
    requires rescheduled && !fromTimer ==> NoneRunning(s.procs)
    ensures var r := Park(if rescheduled then SchedulerUpdate(s, fromTimer) else s);
            Moved(SlotBefore(s, fromTimer, i), r.procs[i], s.cpu, r.cpu, fromTimer)
  {
    if rescheduled {
      UpdateSlot(s, fromTimer, i);
    }
  }

  lemma StepSlot(k: Kernel, op: Op, i: nat)
    requires Inv(k) && Safe(k, op) && 0 < i < |k.procs|
    ensures var s := Prepare(k, op);
            Moved(SlotBefore(s, op.TimerIrq?, i), Step(k, op).procs[i], s.cpu, Step(k, op).cpu, op.TimerIrq?)
  {
    PrepareKeepsInv(k, op);
    SettleSlot(Prepare(k, op), Reschedules(k, op), op.TimerIrq?, i);
  }

  lemma HeadAndTail<T>(s: seq<T>)
    ensures s + [] == s && [] + s == s
    ensures s != [] ==> [s[0]] + s[1..] == s
  {
  }

  /** A queue through a tick: the head leaves exactly when the process is woken, into `current_event`. */
  lemma TickDelivers(p: Process, q: Process, i: nat, passed: int, r: Process, cpu: Registers, cpu': Registers)
    requires q == p.(events := q.events)
    requires Moved(TickProcess(q, i, passed), r, cpu, cpu', true)
    ensures q.events == (if p.status.Suspended? && !r.status.Suspended? then [r.currentEvent] else []) + r.events
    ensures p.started && p.status.Suspended? && !r.status.Suspended? ==> r.registers.eax == CurrentEventOf(i)
  {
    HeadAndTail(q.events);
    if q.status.Suspended? && q.events != [] {
      WokenMoves(q, i, passed, r, cpu, cpu');
    } else {
      OthersMove(q, i, passed, r, cpu, cpu');
    }
  }

  lemma WokenMoves(q: Process, i: nat, passed: int, r: Process, cpu: Registers, cpu': Registers)
    requires q.status.Suspended? && q.events != [] && Moved(TickProcess(q, i, passed), r, cpu, cpu', true)
    ensures !r.status.Suspended? && r.currentEvent == q.events[0] && r.events == q.events[1..]
    ensures q.started ==> r.registers.eax == CurrentEventOf(i)
  {
  }

  lemma OthersMove(q: Process, i: nat, passed: int, r: Process, cpu: Registers, cpu': Registers)
    requires !(q.status.Suspended? && q.events != []) && Moved(TickProcess(q, i, passed), r, cpu, cpu', true)
    ensures r.events == q.events && (q.status.Suspended? ==> r.status.Suspended?)
  {
  }

  /** A queue through a syscall: the head leaves exactly when the puller keeps the processor. */
  lemma SyscallDelivers(p: Process, pushed: seq<Event>, q: Process, r: Process, cpu: Registers, s: Registers,
                        cpu': Registers, pulls: bool)
    requires PreparedSlot(p, pushed, q, cpu, pulls) && Moved(q, r, s, cpu', false)
    ensures p.events + pushed == (if pulls && r.status.Running? then [r.currentEvent] else []) + r.events
  {
    HeadAndTail(p.events);
    HeadAndTail(r.events);
  }

  /** One operation conserves the events of a process that survives it. */
  lemma DeliveryStep(k: Kernel, op: Op, i: nat)
    requires Inv(k) && Safe(k, op) && 0 < i < |k.procs| && IsLive(k.procs[i]) && IsLive(Step(k, op).procs[i])
    ensures k.procs[i].events + PushedAt(k, op, i) == DeliveredAt(k, op, Step(k, op), i) + Step(k, op).procs[i].events
  {
    PrepareSlot(k, op, i);
    StepSlot(k, op, i);
    DeliveryStages(k, op, PushedAt(k, op, i), Prepare(k, op), Step(k, op), i);
  }

  /** The two cases over kernels: k to s by the handler, s to r by the scheduler. */
  lemma DeliveryStages(k: Kernel, op: Op, pushed: seq<Event>, s: Kernel, r: Kernel, i: nat)
    requires i < |k.procs| && i < |s.procs| && i < |r.procs|
    requires PreparedSlot(k.procs[i], pushed, s.procs[i], k.cpu, op.Pull? && Current(k) == Some(i))
    requires Moved(SlotBefore(s, op.TimerIrq?, i), r.procs[i], s.cpu, r.cpu, op.TimerIrq?)
    ensures k.procs[i].events + pushed == DeliveredAt(k, op, r, i) + r.procs[i].events
  {
    if op.TimerIrq? && Active(s) {
      TickDelivers(k.procs[i], s.procs[i], i, s.updates * 10 + 10, r.procs[i], s.cpu, r.cpu);
    } else if op.TimerIrq? {
      HeadAndTail(r.procs[i].events);
    } else {
      SyscallDelivers(k.procs[i], pushed, s.procs[i], r.procs[i], k.cpu, s.cpu, r.cpu,
                      op.Pull? && Current(k) == Some(i));
    }
  }

  /**
   * Over any run of pushes, pulls, ticks, kills and starts, for a process alive at both ends:
   * what was queued, followed by everything pushed, is everything delivered, directly or by
   * waking it, followed by what is still queued. Nothing is lost, duplicated or reordered.
   */
  lemma {:induction false} ExactlyOnceInOrder(k: Kernel, ops: seq<Op>, i: nat)
    requires Inv(k) && CanRun(k, ops) && 0 < i < |k.procs| && IsLive(k.procs[i])
    requires i < |Run(k, ops).procs| && IsLive(Run(k, ops).procs[i])
    requires Run(k, ops).procs[i].fixed.uid == k.procs[i].fixed.uid
    ensures k.procs[i].events + Pushed(k, ops, i) == Delivered(k, ops, i) + Run(k, ops).procs[i].events
    decreases |ops|
  {
    if ops == [] {
      assert k.procs[i].events + [] == [] + k.procs[i].events;
    } else {
      var s := Step(k, ops[0]);
      StepKeepsInv(k, ops[0]);
      LiveSlotKeepsUid(k, ops[0], i);
      LastUidGrows(k, ops[0]);
      if IsDead(s.procs[i]) {
        StaysDead(s, ops[1..], i);
        assert false;
      }
      DeliveryStep(k, ops[0], i);
      ExactlyOnceInOrder(s, ops[1..], i);
      Interleave(k.procs[i].events, PushedAt(k, ops[0], i), DeliveredAt(k, ops[0], s, i), s.procs[i].events,
                 Pushed(s, ops[1..], i), Delivered(s, ops[1..], i), Run(s, ops[1..]).procs[i].events);
    }
  }

  lemma Interleave<T>(e: seq<T>, p: seq<T>, d: seq<T>, e': seq<T>, p': seq<T>, d': seq<T>, e'': seq<T>)
    requires e + p == d + e' && e' + p' == d' + e''
    ensures e + (p + p') == (d + d') + e''
  {
    assert e + (p + p') == (e + p) + p' == (d + e') + p' == d + (e' + p') == d + (d' + e'') == (d + d') + e'';
  }

  /** A delivered event is where the process looks for it: eax names its `current_event`, now or when it resumes. */
  lemma PulledVisible(k: Kernel, i: nat)
    requires Inv(k) && Safe(k, Pull) && 0 < i < |k.procs| && PulledDirectly(k, Pull, Step(k, Pull), i)
    ensures Step(k, Pull).cpu.eax == CurrentEventOf(i)
  {
    StepSlot(k, Pull, i);
  }

  lemma WokenStages(k: Kernel, s: Kernel, r: Kernel, i: nat)
    requires i < |k.procs| && i < |s.procs| && i < |r.procs| && HasRun(k.procs[i])
    requires s.procs[i] == k.procs[i].(events := s.procs[i].events)
    requires Moved(SlotBefore(s, true, i), r.procs[i], s.cpu, r.cpu, true)
    requires Woken(k, TimerIrq, r, i)
    ensures r.procs[i].registers.eax == CurrentEventOf(i)
  {
    if Active(s) {
      TickDelivers(k.procs[i], s.procs[i], i, s.updates * 10 + 10, r.procs[i], s.cpu, r.cpu);
    }
  }

  lemma WokenVisible(k: Kernel, i: nat)
    requires Inv(k) && Safe(k, TimerIrq) && 0 < i < |k.procs| && Woken(k, TimerIrq, Step(k, TimerIrq), i)
    ensures Step(k, TimerIrq).procs[i].registers.eax == CurrentEventOf(i)
  {
    StepSlot(k, TimerIrq, i);
    PrepareSlot(k, TimerIrq, i);
    WokenStages(k, Prepare(k, TimerIrq), Step(k, TimerIrq), i);
  }
}
