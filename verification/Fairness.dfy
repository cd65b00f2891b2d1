/** Bounded waiting: how many ticks a runnable process can be passed over. */
module Fairness {
  import opened Words
  import opened Processes
  import opened Timers
  import opened Kernel
  import opened KernelInvariant
  import opened Delivery

  const MAX_INT: int := 0x8000_0000

  // ---------------------------------------------------------------- the potential

  /** Ticks of suspended time by which p is ahead of, or level with, the waiter. */
  function Lead(p: Process, waiter: Process): nat {
    if p.suspendedTime >= waiter.suspendedTime then (p.suspendedTime - waiter.suspendedTime) / 10 + 1 else 0
  }

  /** Ticks p can still run before it exceeds a quantum of q milliseconds. */
  function Unused(p: Process, q: nat): nat {
    if p.runningTime <= q then (q - p.runningTime) / 10 + 1 else 0
  }

  function Debt(p: Process, waiter: Process, q: nat): nat {
    if IsDead(p) then 0 else Lead(p, waiter) + Unused(p, q)
  }

  /** Sum of the debts of everybody but ALIVE and the waiter, which sits in slot w. */
  function Potential(ps: seq<Process>, waiter: Process, w: nat, q: nat): nat {
    if ps == [] then 0
    else
      var n := |ps| - 1;
      Potential(ps[..n], waiter, w, q) + (if n == ALIVE || n == w then 0 else Debt(ps[n], waiter, q))
  }

  lemma {:induction false} PotentialMonotone(ps: seq<Process>, x: Process, qs: seq<Process>, y: Process, w: nat, q: nat)
    requires |ps| == |qs|
    requires forall j :: 0 < j < |ps| && j != w ==> Debt(qs[j], y, q) <= Debt(ps[j], x, q)
    ensures Potential(qs, y, w, q) <= Potential(ps, x, w, q)
  {
    if ps != [] {
      PotentialMonotone(ps[..|ps| - 1], x, qs[..|ps| - 1], y, w, q);
    }
  }

  lemma {:induction false} PotentialDrops(ps: seq<Process>, x: Process, qs: seq<Process>, y: Process, w: nat, q: nat,
                                          r: nat)
    requires |ps| == |qs| && 0 < r < |ps| && r != w
    requires forall j :: 0 < j < |ps| && j != w ==> Debt(qs[j], y, q) <= Debt(ps[j], x, q)
    requires Debt(qs[r], y, q) < Debt(ps[r], x, q)
    ensures Potential(qs, y, w, q) < Potential(ps, x, w, q)
  {
    if r == |ps| - 1 {
      PotentialMonotone(ps[..|ps| - 1], x, qs[..|ps| - 1], y, w, q);
    } else {
      PotentialDrops(ps[..|ps| - 1], x, qs[..|ps| - 1], y, w, q, r);
    }
  }

  // ---------------------------------------------------------------- the waiting state

  ghost predicate AllStarted(ps: seq<Process>) {
    forall i :: 0 <= i < |ps| && IsLive(ps[i]) ==> ps[i].started
  }

  /** No time can pass 2^31 - 1 within the next `ticks` ticks, so scores do not overflow. */
  ghost predicate Room(k: Kernel, ticks: nat) {
    forall i :: 0 <= i < |k.procs| ==>
      && k.procs[i].suspendedTime + 10 * (k.updates + ticks) < MAX_INT
      && k.procs[i].runningTime + 10 * (k.updates + ticks) < MAX_INT
  }

  ghost predicate RunsAt(ps: seq<Process>, c: int) {
    0 < c < |ps| && ps[c].status.Running?
  }

  /** c is running, and if it is past the quantum q it was ahead of the waiter when it was chosen. */
  ghost predicate Holds(ps: seq<Process>, c: int, w: nat, q: nat) {
    && RunsAt(ps, c) && w < |ps|
    && (ps[c].runningTime > q ==> ps[c].suspendedTime >= ps[w].suspendedTime)
  }

  /** Scheduling is on, everybody has been started, and the process in slot w is runnable. */
  ghost predicate Ready(k: Kernel, w: nat) {
    && Inv(k) && k.enabled && k.canUpdate
    && 0 < w < |k.procs| && k.procs[w].status.Normal?
    && AllStarted(k.procs)
  }

  /** It has waited, and somebody else is running: so it is from the first tick on. */
  ghost predicate Waiting(k: Kernel, w: nat) {
    && Ready(k, w) && k.procs[w].suspendedTime > 0
    && exists c :: RunsAt(k.procs, c)
  }

  // ---------------------------------------------------------------- one operation

  /** Milliseconds the next tick charges. */
  function Passed(k: Kernel, op: Op): nat {
    if op.TimerIrq? then k.updates * 10 + 10 else 0
  }

  /** An entry through one operation that charges dt: only the running one runs, the others wait. */
  ghost predicate Charged(p: Process, r: Process, dt: nat) {
    IsLive(r) ==>
      && IsLive(p) && (p.started ==> r.started)
      && r.suspendedTime == p.suspendedTime + (if p.status.Running? then 0 else dt)
      && r.runningTime == p.runningTime + (if p.status.Running? then dt else 0)
  }

  lemma ChargedStages(p: Process, q: Process, b: Process, r: Process, cpu: Registers, cpu': Registers, i: nat,
                      passed: Option<nat>)
    requires (p.started ==> q.started) && (passed.Some? ==> q.status == p.status)
    requires q.suspendedTime == p.suspendedTime && q.runningTime == p.runningTime && (IsLive(q) ==> IsLive(p))
    requires b == if passed.Some? then TickProcess(q, i, passed.value) else q
    requires passed.Some? ==> p.suspendedTime + passed.value < MAX_INT && p.runningTime + passed.value < MAX_INT
    requires Moved(b, r, cpu, cpu', passed.Some?)
    ensures Charged(p, r, if passed.Some? then passed.value else 0)
  {
  }

  lemma PullSlot(k: Kernel, i: nat)
    requires Safe(k, Pull) && i < |k.procs|
    ensures var p, q := k.procs[i], Prepare(k, Pull).procs[i];
            || q == p
            || (p.status.Running? && p.events != [] && q == PullFront(p))
            || (p.status.Running? && q == p.(status := Suspended, registers := k.cpu))
  {
  }

  lemma PrepareTimes(k: Kernel, op: Op, i: nat)
    requires Inv(k) && Safe(k, op) && !op.Spawn? && i < |k.procs|
    ensures var p := k.procs[i];
            var q := Prepare(k, op).procs[i];
            && q.suspendedTime == p.suspendedTime && q.runningTime == p.runningTime && q.started == p.started
            && q.fixed == p.fixed && (IsLive(q) ==> IsLive(p))
            && (!op.Pull? && !op.Kill? ==> q.status == p.status)
            && (q.status.Normal? <==> p.status.Normal? && IsLive(q))
  {
    match op {
      case TimerIrq => PushTimersQueue(k.procs, DueTimers(k.timers.slots), i);
      case StartAlive =>
      case Pull => PullSlot(k, i);
      case Queue(_, _) =>
      case Kill(victim) => KillSlot(k, victim, i);
      case Key(_) =>
      case TimerStart(_) =>
      case TimerCancel(_) =>
      case User(_) =>
    }
  }

  lemma PrepareFlags(k: Kernel, op: Op)
    requires Safe(k, op) && !op.Spawn? && k.enabled && k.canUpdate
    ensures var s := Prepare(k, op);
            s.enabled && s.canUpdate && s.updates == k.updates && |s.procs| == |k.procs|
  {
  }

  lemma StepTimes(k: Kernel, op: Op, i: nat)
    requires Inv(k) && Safe(k, op) && !op.Spawn? && k.enabled && k.canUpdate && 0 < i < |k.procs|
    requires Room(k, if op.TimerIrq? then 1 else 0)
    ensures Charged(k.procs[i], Step(k, op).procs[i], Passed(k, op))
  {
    PrepareTimes(k, op, i);
    PrepareFlags(k, op);
    StepSlot(k, op, i);
    SlotTimes(k, op, Prepare(k, op), Step(k, op), i);
  }

  lemma SlotTimes(k: Kernel, op: Op, s: Kernel, r: Kernel, i: nat)
    requires i < |k.procs| && i < |s.procs| && i < |r.procs|
    requires Active(s) && s.updates == k.updates && Room(k, if op.TimerIrq? then 1 else 0)
    requires var p, q := k.procs[i], s.procs[i];
             && q.suspendedTime == p.suspendedTime && q.runningTime == p.runningTime && q.started == p.started
             && (IsLive(q) ==> IsLive(p)) && (!op.Pull? && !op.Kill? ==> q.status == p.status)
    requires Moved(SlotBefore(s, op.TimerIrq?, i), r.procs[i], s.cpu, r.cpu, op.TimerIrq?)
    ensures Charged(k.procs[i], r.procs[i], Passed(k, op))
  {
    ChargedStages(k.procs[i], s.procs[i], SlotBefore(s, op.TimerIrq?, i), r.procs[i], s.cpu, r.cpu, i,
                  if op.TimerIrq? then Some(Passed(k, op)) else None);
  }

  // ---------------------------------------------------------------- the choice

  ghost predicate NoOverflow(ps: seq<Process>) {
    forall i :: 0 <= i < |ps| ==> ps[i].fixed.priority == 0 && ps[i].suspendedTime < MAX_INT
  }

  lemma ScoreIsTime(p: Process)
    requires p.fixed.priority == 0 && p.suspendedTime < MAX_INT
    ensures Score(p) == p.suspendedTime
  {
  }

  /** With everybody started and a waiter with positive time, the scan finds someone at least as long suspended. */
  lemma PickAtLeast(ps: seq<Process>, w: nat)
    requires NoOverflow(ps) && AllStarted(ps) && w < |ps| && ps[w].status.Normal? && ps[w].suspendedTime > 0
    ensures Pick(ps).Some? && ps[Pick(ps).value].suspendedTime >= ps[w].suspendedTime
  {
    ScoreIsTime(ps[w]);
    var n := Pick(ps);
    assert n.Some?;
    assert ps[n.value].started;
    ScoreIsTime(ps[n.value]);
  }

  // ---------------------------------------------------------------- who holds the processor afterwards

  lemma PrepareRunning(k: Kernel, op: Op, c: nat)
    requires Inv(k) && Safe(k, op) && !Reschedules(k, op) && c < |k.procs| && k.procs[c].status.Running?
    ensures Prepare(k, op).procs[c].status.Running?
  {
    match op {
      case TimerIrq =>
      case StartAlive =>
      case Spawn(_, _, _, _, _, _) =>
      case Pull =>
      case Queue(_, _) =>
      case Kill(_) =>
      case Key(_) =>
      case TimerStart(_) =>
      case TimerCancel(_) =>
      case User(_) =>
    }
  }

  /** Without rescheduling the holder stays. */
  lemma HolderStays(k: Kernel, op: Op, w: nat, q: nat, c: nat)
    requires Waiting(k, w) && Safe(k, op) && !op.Spawn? && !Reschedules(k, op) && RunsAt(k.procs, c)
    ensures RunsAt(Step(k, op).procs, c) && (Holds(k.procs, c, w, q) ==> Holds(Step(k, op).procs, c, w, q))
  {
    PrepareRunning(k, op, c);
    PrepareTimes(k, op, c);
    PrepareTimes(k, op, w);
    PrepareKeepsInv(k, op);
  }

  /** The table a rescheduling syscall scans still has the waiter in it. */
  lemma PreparedTable(k: Kernel, op: Op, w: nat)
    requires Waiting(k, w) && Safe(k, op) && !op.Spawn? && IsLive(Prepare(k, op).procs[w]) && Room(k, 0)
    ensures var ps := Prepare(k, op).procs;
            NoOverflow(ps) && AllStarted(ps) && ps[w].status.Normal? && ps[w].suspendedTime > 0 && |ps| == |k.procs|
  {
    PrepareFlags(k, op);
    var ps := Prepare(k, op).procs;
    forall i | 0 <= i < |ps|
      ensures ps[i].fixed.priority == 0 && ps[i].suspendedTime < MAX_INT && (IsLive(ps[i]) ==> ps[i].started)
    {
      PrepareTimes(k, op, i);
    }
    PrepareTimes(k, op, w);
  }

  /** With nobody running, the update of a syscall runs someone at least as long suspended as the waiter. */
  lemma SyscallPick(s: Kernel, w: nat) returns (c: int)
    requires Schedulable(s, false) && s.enabled && s.canUpdate && NoOverflow(s.procs) && AllStarted(s.procs)
    requires w < |s.procs| && s.procs[w].status.Normal? && s.procs[w].suspendedTime > 0
    ensures var h := SchedulerUpdate(s, false);
            && 0 < c < |s.procs| == |h.procs| && h.procs[c].status.Running?
            && s.procs[c].status.Normal? && s.procs[c].suspendedTime >= s.procs[w].suspendedTime
  {
    PickAtLeast(s.procs, w);
    UpdateLeavesOneRunning(s, false);
    c := Chosen(s, false);
  }

  /** After a syscall gave the processor up, the new holder had waited at least as long as the waiter. */
  lemma HolderAfterSyscall(k: Kernel, op: Op, w: nat, q: nat) returns (c: int)
    requires Waiting(k, w) && Safe(k, op) && !op.Spawn? && Reschedules(k, op) && !op.TimerIrq? && Room(k, 0)
    requires Step(k, op).procs[w].status.Normal?
    ensures Holds(Step(k, op).procs, c, w, q)
  {
    PrepareKeepsInv(k, op);
    PrepareFlags(k, op);
    StepSlot(k, op, w);
    PreparedTable(k, op, w);
    c := SyscallPick(Prepare(k, op), w);
    PrepareTimes(k, op, c);
    SettledHolder(k, op, Prepare(k, op), Handle(k, op), Step(k, op), c, w, q);
  }

  /** Times do not change in a syscall, so being ahead in the scanned table is being ahead afterwards. */
  lemma SettledHolder(k: Kernel, op: Op, s: Kernel, h: Kernel, r: Kernel, c: nat, w: nat, q: nat)
    requires Inv(k) && Safe(k, op) && !op.Spawn? && !op.TimerIrq? && k.enabled && k.canUpdate && Room(k, 0)
    requires s == Prepare(k, op) && r == Step(k, op) && r == Park(h)
    requires 0 < w < |k.procs| && 0 < c < |s.procs| == |k.procs| == |h.procs| && h.procs[c].status.Running?
    requires IsLive(h.procs[w])
    requires s.procs[c].status.Normal? && s.procs[c].suspendedTime >= s.procs[w].suspendedTime
    requires !k.procs[w].status.Running? && !k.procs[c].status.Running?
    ensures Holds(r.procs, c, w, q)
  {
    StepTimes(k, op, c);
    StepTimes(k, op, w);
    PrepareTimes(k, op, c);
    PrepareTimes(k, op, w);
  }

  /** ps is table k.procs charged with dt, as a tick leaves it before anybody is switched. */
  ghost predicate TickedBy(k: Kernel, ps: seq<Process>, dt: nat) {
    && |ps| == |k.procs|
    && forall i :: 0 <= i < |ps| ==> TickedEntry(k.procs[i], ps[i], dt)
  }

  ghost predicate TickedEntry(p: Process, r: Process, dt: nat) {
    && r.fixed == p.fixed && r.started == p.started && (IsLive(r) <==> IsLive(p))
    && r.status.Running? == p.status.Running? && (p.status.Normal? ==> r.status.Normal?)
    && r.suspendedTime == p.suspendedTime + (if p.status.Running? || IsDead(p) then 0 else dt)
    && r.runningTime == p.runningTime + (if p.status.Running? then dt else 0)
  }

  lemma TickEntryTimes(p: Process, q: Process, i: nat, dt: nat)
    requires q == p.(events := q.events)
    requires p.suspendedTime + dt < MAX_INT && p.runningTime + dt < MAX_INT
    ensures TickedEntry(p, TickProcess(q, i, dt), dt)
  {
  }

  lemma TickedTable(k: Kernel)
    requires Room(k, 1)
    ensures TickedBy(k, Scanned(Fired(k), true), k.updates * 10 + 10)
    ensures LiveCount(Fired(k).procs) == LiveCount(k.procs)
  {
    var s := Fired(k);
    forall i | 0 <= i < |k.procs|
      ensures s.procs[i] == k.procs[i].(events := s.procs[i].events)
      ensures TickedEntry(k.procs[i], Scanned(s, true)[i], k.updates * 10 + 10)
    {
      PushTimersQueue(k.procs, DueTimers(k.timers.slots), i);
      TickEntryTimes(k.procs[i], s.procs[i], i, k.updates * 10 + 10);
    }
    LiveCountAgrees(k.procs, s.procs);
  }

  /** The scan at a tick can fall back on the waiter. */
  lemma TickedPick(k: Kernel, ps: seq<Process>, dt: nat, w: nat)
    requires Ready(k, w) && dt > 0 && TickedBy(k, ps, dt)
    requires forall i :: 0 <= i < |k.procs| ==> k.procs[i].suspendedTime + dt < MAX_INT
    ensures Pick(ps).Some? && ps[Pick(ps).value].suspendedTime >= ps[w].suspendedTime
    ensures LastRunning(ps).Some? ==> RunsAt(k.procs, LastRunning(ps).value)
  {
    forall i | 0 <= i < |ps|
      ensures ps[i].fixed.priority == 0 && ps[i].suspendedTime < MAX_INT && (IsLive(ps[i]) ==> ps[i].started)
    {
      assert TickedEntry(k.procs[i], ps[i], dt);
    }
    assert TickedEntry(k.procs[w], ps[w], dt);
    PickAtLeast(ps, w);
    if LastRunning(ps).Some? {
      assert TickedEntry(k.procs[LastRunning(ps).value], ps[LastRunning(ps).value], dt);
    }
  }

  /** Whom a tick leaves running, in the table as it was charged. */
  lemma TickChoice(k: Kernel, w: nat, q: nat) returns (ps: seq<Process>, c: int)
    requires Ready(k, w) && Safe(k, TimerIrq) && Room(k, 1)
    requires LiveCount(k.procs) > 0 && 1000 / LiveCount(k.procs) <= q
    ensures TickedBy(k, ps, k.updates * 10 + 10) && 0 < c < |ps| && IsLive(ps[c]) && ps[w].status.Normal?
    ensures ps[c].runningTime > q ==> ps[c].suspendedTime >= ps[w].suspendedTime
    ensures c < |Step(k, TimerIrq).procs| && Step(k, TimerIrq).procs[c].status.Running?
  {
    FiredInv(k);
    TickedTable(k);
    PrepareFlags(k, TimerIrq);
    ps := Scanned(Fired(k), true);
    ScannedShape(Fired(k), ps);
    c := ChosenAtTick(k, Fired(k), ps, w, q);
    assert TickedEntry(k.procs[w], ps[w], k.updates * 10 + 10);
    RunsAfterTick(k, Fired(k), c);
  }

  /** After a tick the holder is within its quantum, or was just chosen ahead of the waiter. */
  lemma HolderAfterTick(k: Kernel, w: nat, q: nat) returns (c: int)
    requires Ready(k, w) && Safe(k, TimerIrq) && Room(k, 1)
    requires Step(k, TimerIrq).procs[w].status.Normal?
    requires LiveCount(k.procs) > 0 && 1000 / LiveCount(k.procs) <= q
    ensures Holds(Step(k, TimerIrq).procs, c, w, q)
  {
    var ps;
    ps, c := TickChoice(k, w, q);
    StepFlags(k, TimerIrq);
    HoldsAfterTick(k, ps, Step(k, TimerIrq), c, w, q);
  }

  lemma HoldsAfterTick(k: Kernel, ps: seq<Process>, r: Kernel, c: nat, w: nat, q: nat)
    requires Ready(k, w) && Safe(k, TimerIrq) && Room(k, 1) && r == Step(k, TimerIrq)
    requires TickedBy(k, ps, k.updates * 10 + 10) && 0 < c < |ps| && IsLive(ps[c]) && IsLive(ps[w])
    requires ps[c].runningTime > q ==> ps[c].suspendedTime >= ps[w].suspendedTime
    requires |r.procs| == |k.procs| && r.procs[c].status.Running? && r.procs[w].status.Normal?
    ensures Holds(r.procs, c, w, q)
  {
    var dt := k.updates * 10 + 10;
    assert Charged(k.procs[c], r.procs[c], dt) by {
      TickCharges(k, c);
    }
    assert Charged(k.procs[w], r.procs[w], dt) by {
      TickCharges(k, w);
    }
    TickHolds(k, ps, r, c, w, q, dt);
  }

  lemma TickCharges(k: Kernel, i: nat)
    requires Inv(k) && Safe(k, TimerIrq) && k.enabled && k.canUpdate && Room(k, 1) && 0 < i < |k.procs|
    ensures i < |Step(k, TimerIrq).procs| && Charged(k.procs[i], Step(k, TimerIrq).procs[i], k.updates * 10 + 10)
  {
    StepTimes(k, TimerIrq, i);
  }

  lemma RunsAfterTick(k: Kernel, s: Kernel, c: nat)
    requires Safe(k, TimerIrq) && s == Prepare(k, TimerIrq) && Inv(s) && Active(s) && c == Chosen(s, true) && c != ALIVE
    ensures c < |Step(k, TimerIrq).procs| && Step(k, TimerIrq).procs[c].status.Running?
  {
    UpdateLeavesOneRunning(s, true);
  }

  lemma ChosenIs(s: Kernel, ps: seq<Process>)
    requires ps == Scanned(s, true) && LiveCount(s.procs) > 0
    ensures match LastRunning(s.procs)
            case None => Chosen(s, true) == if Pick(ps).Some? then Pick(ps).value else ALIVE
            case Some(h) =>
              && h < |ps|
              && Chosen(s, true)
                 == if OverQuantum(ps[h], LiveCount(s.procs)) && Pick(ps).Some? then Pick(ps).value else h
  {
  }

  lemma ChosenAtTick(k: Kernel, s: Kernel, ps: seq<Process>, w: nat, q: nat) returns (c: int)
    requires Ready(k, w) && Room(k, 1)
    requires ps == Scanned(s, true) && TickedBy(k, ps, k.updates * 10 + 10)
    requires LastRunning(s.procs) == LastRunning(ps) && ps[ALIVE].status.Suspended?
    requires LiveCount(s.procs) == LiveCount(k.procs) > 0 && 1000 / LiveCount(k.procs) <= q
    ensures c == Chosen(s, true) && 0 < c < |ps| && IsLive(ps[c])
    ensures ps[c].runningTime > q ==> ps[c].suspendedTime >= ps[w].suspendedTime
  {
    var dt := k.updates * 10 + 10;
    TickedPick(k, ps, dt, w);
    PrioritiesZero(k, ps, dt);
    c := Chosen(s, true);
    ChosenTimes(s, ps, w, q);
  }

  lemma PrioritiesZero(k: Kernel, ps: seq<Process>, dt: nat)
    requires Inv(k) && TickedBy(k, ps, dt)
    ensures forall i :: 0 <= i < |ps| ==> ps[i].fixed.priority == 0
  {
    forall i | 0 <= i < |ps|
      ensures ps[i].fixed.priority == 0
    {
      assert TickedEntry(k.procs[i], ps[i], dt);
    }
  }

  lemma ScannedShape(s: Kernel, ps: seq<Process>)
    requires AliveParked(s.procs) && OneRunning(s.procs) && ps == Scanned(s, true)
    ensures |ps| == |s.procs| && ps[ALIVE].status.Suspended? && LastRunning(s.procs) == LastRunning(ps)
  {
    TickedShape(s);
    if LastRunning(ps).Some? {
      RunningPlace(s.procs, ps, LastRunning(ps).value);
    }
  }

  lemma RunningPlace(ps: seq<Process>, qs: seq<Process>, h: nat)
    requires OneRunning(ps) && |ps| == |qs| && h < |qs| && qs[h].status.Running?
    requires forall i :: 0 <= i < |ps| ==> (qs[i].status.Running? <==> ps[i].status.Running?)
    ensures LastRunning(ps) == Some(h)
  {
    assert ps[h].status.Running?;
  }

  /** The choice is the pick, at least as long suspended as the waiter, or a holder within its quantum. */
  lemma ChosenTimes(s: Kernel, ps: seq<Process>, w: nat, q: nat)
    requires ps == Scanned(s, true) && LastRunning(s.procs) == LastRunning(ps) && LiveCount(s.procs) > 0
    requires w < |ps| && 1000 / LiveCount(s.procs) <= q && ps[ALIVE].status.Suspended?
    requires Pick(ps).Some? && ps[Pick(ps).value].suspendedTime >= ps[w].suspendedTime
    requires forall i :: 0 <= i < |ps| ==> ps[i].fixed.priority == 0
    ensures var c := Chosen(s, true);
            0 < c < |ps| && IsLive(ps[c]) && (ps[c].runningTime > q ==> ps[c].suspendedTime >= ps[w].suspendedTime)
  {
    ChosenIs(s, ps);
  }

  lemma TickHolds(k: Kernel, ps: seq<Process>, r: Kernel, c: nat, w: nat, q: nat, dt: nat)
    requires TickedBy(k, ps, dt) && |r.procs| == |k.procs| && 0 < c < |ps| && w < |ps|
    requires IsLive(ps[c]) && IsLive(ps[w]) && r.procs[c].status.Running? && IsLive(r.procs[w])
    requires ps[c].runningTime > q ==> ps[c].suspendedTime >= ps[w].suspendedTime
    requires Charged(k.procs[c], r.procs[c], dt) && Charged(k.procs[w], r.procs[w], dt)
    ensures Holds(r.procs, c, w, q)
  {
    assert TickedEntry(k.procs[c], ps[c], dt);
    assert TickedEntry(k.procs[w], ps[w], dt);
  }

  // ---------------------------------------------------------------- one step of the wait

  lemma DebtStep(p: Process, r: Process, x: Process, y: Process, dt: nat, q: nat)
    requires Charged(p, r, dt) && y.suspendedTime == x.suspendedTime + dt
    ensures Debt(r, y, q) <= Debt(p, x, q)
    ensures p.status.Running? && dt >= 10 && (p.runningTime > q ==> p.suspendedTime >= x.suspendedTime)
            ==> Debt(r, y, q) < Debt(p, x, q)
  {
  }

  /**
   * An operation the waiter stays runnable through keeps it waiting. Potential never grows, a tick
   * with an entitled holder pays one unit of it, and after any tick the holder is entitled.
   */
  lemma WaitStep(k: Kernel, op: Op, w: nat, q: nat)
    requires Waiting(k, w) && Safe(k, op) && !op.Spawn?
    requires Room(k, if op.TimerIrq? then 1 else 0)
    requires LiveCount(k.procs) > 0 && 1000 / LiveCount(k.procs) <= q
    requires Step(k, op).procs[w].status.Normal?
    ensures Waiting(Step(k, op), w)
    ensures op.TimerIrq? || Entitled(k, w, q) ==> Entitled(Step(k, op), w, q)
    ensures Potential(Step(k, op).procs, Step(k, op).procs[w], w, q)
            + (if op.TimerIrq? && Entitled(k, w, q) then 1 else 0)
            <= Potential(k.procs, k.procs[w], w, q)
  {
    StepKeepsInv(k, op);
    StepFlags(k, op);
    if op.TimerIrq? {
      var c := HolderAfterTick(k, w, q);
    } else if Reschedules(k, op) {
      var c := HolderAfterSyscall(k, op, w, q);
    } else {
      var c :| RunsAt(k.procs, c) && (Entitled(k, w, q) ==> Holds(k.procs, c, w, q));
      HolderStays(k, op, w, q, c);
    }
    PotentialStep(k, op, Step(k, op), w, q);
  }

  /** The same for a process that is only ready: after the first tick it is waiting, behind an entitled holder. */
  lemma ReadyStep(k: Kernel, op: Op, w: nat, q: nat)
    requires Ready(k, w) && Safe(k, op) && !op.Spawn?
    requires Room(k, if op.TimerIrq? then 1 else 0)
    requires LiveCount(k.procs) > 0 && 1000 / LiveCount(k.procs) <= q
    requires Step(k, op).procs[w].status.Normal?
    ensures Ready(Step(k, op), w)
    ensures op.TimerIrq? ==> Waiting(Step(k, op), w) && Entitled(Step(k, op), w, q)
    ensures Potential(Step(k, op).procs, Step(k, op).procs[w], w, q) <= Potential(k.procs, k.procs[w], w, q)
  {
    StepKeepsInv(k, op);
    StepFlags(k, op);
    if op.TimerIrq? {
      var c := HolderAfterTick(k, w, q);
    }
    PotentialStep(k, op, Step(k, op), w, q);
  }

  /** Whoever runs is within the quantum or was at least as long suspended as the waiter. */
  ghost predicate Entitled(k: Kernel, w: nat, q: nat) {
    exists c :: Holds(k.procs, c, w, q)
  }

  lemma StepFlags(k: Kernel, op: Op)
    requires Inv(k) && Safe(k, op) && !op.Spawn? && k.enabled && k.canUpdate
    ensures var s := Step(k, op);
            s.enabled && s.canUpdate && |s.procs| == |k.procs| && s.updates == if op.TimerIrq? then 0 else k.updates
  {
    PrepareFlags(k, op);
    PrepareKeepsInv(k, op);
    if Reschedules(k, op) {
      UpdateSame(Prepare(k, op), op.TimerIrq?);
      ParkFlags(Prepare(k, op), SchedulerUpdate(Prepare(k, op), op.TimerIrq?), op.TimerIrq?);
    } else {
      ParkFlags(Prepare(k, op), Prepare(k, op), false);
    }
  }

  lemma ParkFlags(s: Kernel, r: Kernel, fromTimer: bool)
    requires s.enabled && s.canUpdate && |s.procs| == |r.procs|
    requires r == s.(procs := r.procs, cpu := r.cpu, loaded := r.loaded, updates := r.updates)
    requires r.updates == if fromTimer then 0 else s.updates
    ensures var p := Park(r);
            p.enabled && p.canUpdate && |p.procs| == |s.procs| && p.updates == if fromTimer then 0 else s.updates
  {
  }

  lemma PotentialStep(k: Kernel, op: Op, r: Kernel, w: nat, q: nat)
    requires Ready(k, w) && Safe(k, op) && !op.Spawn? && r == Step(k, op) && |r.procs| == |k.procs|
    requires Room(k, if op.TimerIrq? then 1 else 0) && r.procs[w].status.Normal?
    ensures AllStarted(r.procs) && r.procs[w].suspendedTime == k.procs[w].suspendedTime + Passed(k, op)
    ensures Potential(r.procs, r.procs[w], w, q) + (if op.TimerIrq? && Entitled(k, w, q) then 1 else 0)
            <= Potential(k.procs, k.procs[w], w, q)
  {
    forall j | 0 < j < |k.procs|
      ensures Charged(k.procs[j], r.procs[j], Passed(k, op))
    {
      StepTimes(k, op, j);
    }
    StepKeepsInv(k, op);
    PotentialCharged(k, r, w, q, Passed(k, op));
  }

  /** The wait, from what one operation charges everybody. */
  lemma PotentialCharged(k: Kernel, r: Kernel, w: nat, q: nat, dt: nat)
    requires Ready(k, w) && |r.procs| == |k.procs| && r.procs[w].status.Normal? && AliveParked(r.procs)
    requires forall j :: 0 < j < |k.procs| ==> Charged(k.procs[j], r.procs[j], dt)
    ensures AllStarted(r.procs) && r.procs[w].suspendedTime == k.procs[w].suspendedTime + dt
    ensures Potential(r.procs, r.procs[w], w, q) + (if dt >= 10 && Entitled(k, w, q) then 1 else 0)
            <= Potential(k.procs, k.procs[w], w, q)
  {
    var x, y := k.procs[w], r.procs[w];
    assert Charged(x, y, dt);
    forall j | 0 < j < |k.procs|
      ensures Debt(r.procs[j], y, q) <= Debt(k.procs[j], x, q)
    {
      DebtStep(k.procs[j], r.procs[j], x, y, dt, q);
    }
    if dt >= 10 && Entitled(k, w, q) {
      var c :| Holds(k.procs, c, w, q);
      DebtStep(k.procs[c], r.procs[c], x, y, dt, q);
      PotentialDrops(k.procs, x, r.procs, y, w, q, c);
    } else {
      PotentialMonotone(k.procs, x, r.procs, y, w, q);
    }
  }

  lemma {:induction false} LiveCountShrinks(ps: seq<Process>, qs: seq<Process>)
    requires |ps| == |qs|
    requires forall i :: 0 <= i < |ps| ==> (IsLive(qs[i]) ==> IsLive(ps[i]))
    ensures LiveCount(qs) <= LiveCount(ps)
  {
    if ps != [] {
      LiveCountShrinks(ps[..|ps| - 1], qs[..|ps| - 1]);
    }
  }

  ghost predicate SameTimes(ps: seq<Process>, qs: seq<Process>) {
    && |ps| == |qs|
    && forall i :: 0 <= i < |ps| ==>
         qs[i].suspendedTime == ps[i].suspendedTime && qs[i].runningTime == ps[i].runningTime
  }

  lemma IdleTimes(k: Kernel)
    requires |k.procs| > 0
    ensures SameTimes(k.procs, SwitchFromIdle(k).procs)
  {
  }

  lemma CheckTimes(k: Kernel, h: nat, count: nat)
    requires h < |k.procs| && k.procs[h].status.Running? && count > 0
    ensures SameTimes(k.procs, CheckQuantum(k, h, count).procs)
  {
  }

  /** Scheduling moves no times beyond what the tick charged, for ALIVE too. */
  lemma UpdateTimes(k: Kernel, fromTimer: bool)
    requires |k.procs| > 0 && Active(k)
    ensures SameTimes(Scanned(k, fromTimer), SchedulerUpdate(k, fromTimer).procs)
  {
    if !fromTimer {
      IdleTimes(k);
    } else if LastRunning(k.procs).None? {
      IdleTimes(Ticked(k));
    } else {
      LiveCountPositive(k.procs, LastRunning(k.procs).value);
      CheckTimes(Ticked(k), LastRunning(k.procs).value, LiveCount(k.procs));
    }
  }

  lemma ScannedTimes(k: Kernel, fromTimer: bool, dt: nat)
    requires dt == if fromTimer then k.updates * 10 + 10 else 0
    requires forall i :: 0 <= i < |k.procs| ==>
              k.procs[i].suspendedTime + dt < WORD && k.procs[i].runningTime + dt < WORD
    ensures LaterTimes(k.procs, Scanned(k, fromTimer), dt)
  {
  }

  ghost predicate LaterTimes(ps: seq<Process>, qs: seq<Process>, dt: nat) {
    && |ps| == |qs|
    && forall i :: 0 <= i < |ps| ==>
         qs[i].suspendedTime <= ps[i].suspendedTime + dt && qs[i].runningTime <= ps[i].runningTime + dt
  }

  lemma PreparedTimes(k: Kernel, op: Op)
    requires Inv(k) && Safe(k, op) && !op.Spawn? && k.enabled && k.canUpdate
    ensures SameTimes(k.procs, Prepare(k, op).procs)
  {
    PrepareFlags(k, op);
    forall i | 0 <= i < |k.procs|
      ensures Prepare(k, op).procs[i].suspendedTime == k.procs[i].suspendedTime
      ensures Prepare(k, op).procs[i].runningTime == k.procs[i].runningTime
    {
      PrepareTimes(k, op, i);
    }
  }

  lemma StepLater(k: Kernel, op: Op)
    requires Inv(k) && Safe(k, op) && !op.Spawn? && k.enabled && k.canUpdate && Room(k, if op.TimerIrq? then 1 else 0)
    ensures LaterTimes(k.procs, Step(k, op).procs, Passed(k, op))
  {
    var s := Prepare(k, op);
    PreparedTimes(k, op);
    PrepareFlags(k, op);
    if Reschedules(k, op) {
      UpdateTimes(s, op.TimerIrq?);
      LaterStages(k, op, s, SchedulerUpdate(s, op.TimerIrq?));
    } else {
      LaterTimesParked(k.procs, s, s.procs, Passed(k, op));
    }
  }

  lemma LaterStages(k: Kernel, op: Op, s: Kernel, h: Kernel)
    requires Room(k, if op.TimerIrq? then 1 else 0) && SameTimes(k.procs, s.procs) && s.updates == k.updates
    requires SameTimes(Scanned(s, op.TimerIrq?), h.procs)
    ensures LaterTimes(k.procs, Park(h).procs, Passed(k, op))
  {
    ScannedTimes(s, op.TimerIrq?, Passed(k, op));
    LaterTimesParked(k.procs, h, Scanned(s, op.TimerIrq?), Passed(k, op));
  }

  lemma LaterTimesParked(ps: seq<Process>, h: Kernel, qs: seq<Process>, dt: nat)
    requires LaterTimes(ps, qs, dt) && SameTimes(qs, h.procs)
    ensures LaterTimes(ps, Park(h).procs, dt)
  {
  }

  lemma RoomStep(k: Kernel, op: Op, ticks: nat)
    requires Inv(k) && Safe(k, op) && !op.Spawn? && k.enabled && k.canUpdate
    requires Room(k, ticks + (if op.TimerIrq? then 1 else 0))
    ensures Room(Step(k, op), ticks)
  {
    StepFlags(k, op);
    StepLater(k, op);
    RoomLater(k, Step(k, op), op, ticks);
  }

  lemma RoomLater(k: Kernel, s: Kernel, op: Op, ticks: nat)
    requires Room(k, ticks + (if op.TimerIrq? then 1 else 0)) && LaterTimes(k.procs, s.procs, Passed(k, op))
    requires s.updates == if op.TimerIrq? then 0 else k.updates
    ensures Room(s, ticks)
  {
  }

  lemma LiveCountStep(k: Kernel, op: Op)
    requires Inv(k) && Safe(k, op) && !op.Spawn? && k.enabled && k.canUpdate && Room(k, if op.TimerIrq? then 1 else 0)
    ensures 0 < LiveCount(Step(k, op).procs) <= LiveCount(k.procs)
  {
    StepFlags(k, op);
    StepKeepsInv(k, op);
    forall i | 0 < i < |k.procs|
      ensures IsLive(Step(k, op).procs[i]) ==> IsLive(k.procs[i])
    {
      StepTimes(k, op, i);
    }
    LiveCountShrinks(k.procs, Step(k, op).procs);
    LiveCountPositive(Step(k, op).procs, ALIVE);
  }

  // ---------------------------------------------------------------- the whole wait

  /** The process in slot w is runnable, and not running, after every operation of the run. */
  predicate PassedOver(k: Kernel, ops: seq<Op>, w: nat)
    requires CanRun(k, ops)
    decreases |ops|
  {
    || ops == []
    || (&& w < |Step(k, ops[0]).procs| && Step(k, ops[0]).procs[w].status.Normal?
        && PassedOver(Step(k, ops[0]), ops[1..], w))
  }

  ghost predicate NoSpawn(ops: seq<Op>) {
    forall i :: 0 <= i < |ops| ==> !ops[i].Spawn?
  }

  /** Processes only die in a run without starts. */
  lemma {:induction false} LiveCountRun(k: Kernel, ops: seq<Op>)
    requires Inv(k) && k.enabled && k.canUpdate && CanRun(k, ops) && NoSpawn(ops) && Room(k, TickCount(ops))
    ensures 0 < LiveCount(Run(k, ops).procs) <= LiveCount(k.procs)
    decreases |ops|
  {
    if ops == [] {
      LiveCountPositive(k.procs, ALIVE);
    } else {
      RunPrefix(k, ops);
      LiveCountStep(k, ops[0]);
      LiveCountRun(Step(k, ops[0]), ops[1..]);
    }
  }

  lemma RunPrefix(k: Kernel, ops: seq<Op>)
    requires Inv(k) && k.enabled && k.canUpdate && ops != [] && CanRun(k, ops) && NoSpawn(ops)
    requires Room(k, TickCount(ops))
    ensures var s := Step(k, ops[0]);
            && !ops[0].Spawn? && Room(k, if ops[0].TimerIrq? then 1 else 0)
            && Inv(s) && s.enabled && s.canUpdate && NoSpawn(ops[1..]) && Room(s, TickCount(ops[1..]))
  {
    StepKeepsInv(k, ops[0]);
    StepFlags(k, ops[0]);
    RoomStep(k, ops[0], TickCount(ops[1..]));
    var rest := ops[1..];
    assert forall i :: 0 <= i < |rest| ==> rest[i] == ops[i + 1];
  }

  /**
   * A process passed over throughout a run has seen at most its potential in ticks, one more if the
   * first holder was not entitled.
   */
  lemma {:induction false} TicksPaid(k: Kernel, ops: seq<Op>, w: nat, q: nat)
    requires Waiting(k, w) && CanRun(k, ops) && NoSpawn(ops) && Room(k, TickCount(ops)) && PassedOver(k, ops, w)
    requires LiveCount(Run(k, ops).procs) > 0 && 1000 / LiveCount(Run(k, ops).procs) <= q
    ensures TickCount(ops) <= Potential(k.procs, k.procs[w], w, q) + (if Entitled(k, w, q) then 0 else 1)
    decreases |ops|
  {
    if ops != [] {
      RunPrefix(k, ops);
      LiveCountRun(k, ops);
      QuantumShrinks(LiveCount(k.procs), LiveCount(Run(k, ops).procs));
      WaitStep(k, ops[0], w, q);
      TicksPaid(Step(k, ops[0]), ops[1..], w, q);
    }
  }

  /** Ready only: the tick after which it is waiting is the one more. */
  lemma {:induction false} TicksPaidReady(k: Kernel, ops: seq<Op>, w: nat, q: nat)
    requires Ready(k, w) && CanRun(k, ops) && NoSpawn(ops) && Room(k, TickCount(ops)) && PassedOver(k, ops, w)
    requires LiveCount(Run(k, ops).procs) > 0 && 1000 / LiveCount(Run(k, ops).procs) <= q
    ensures TickCount(ops) <= Potential(k.procs, k.procs[w], w, q) + 1
    decreases |ops|
  {
    if ops != [] {
      RunPrefix(k, ops);
      LiveCountRun(k, ops);
      QuantumShrinks(LiveCount(k.procs), LiveCount(Run(k, ops).procs));
      ReadyStep(k, ops[0], w, q);
      if ops[0].TimerIrq? {
        TicksPaid(Step(k, ops[0]), ops[1..], w, q);
      } else {
        TicksPaidReady(Step(k, ops[0]), ops[1..], w, q);
      }
    }
  }

  lemma QuotientBound(n: nat, b: nat, x: nat)
    requires 0 < b && b * x <= n
    ensures x <= n / b
  {
    var y := n / b;
    assert n < b * y + b;
    if x > y {
      ScaleUp(y + 1, x, b);
      assert false;
    }
  }

  lemma ScaleUp(x: nat, y: nat, b: nat)
    requires x <= y
    ensures b * x <= b * y
  {
  }

  /** More processes share a shorter quantum. */
  lemma QuantumShrinks(a: nat, b: nat)
    requires 0 < b <= a
    ensures 1000 / a <= 1000 / b
  {
    var x := 1000 / a;
    ScaleUp(b, a, x);
    assert x * a <= 1000;
    QuotientBound(1000, b, x);
  }

  /** The process in slot w gets the processor, or dies, at some point of the run. */
  predicate ServedWithin(k: Kernel, ops: seq<Op>, w: nat)
    requires CanRun(k, ops)
    decreases |ops|
  {
    && ops != [] && w < |Step(k, ops[0]).procs|
    && var p := Step(k, ops[0]).procs[w];
       p.status.Running? || IsDead(p) || ServedWithin(Step(k, ops[0]), ops[1..], w)
  }

  lemma NormalNext(k: Kernel, op: Op, w: nat)
    requires Inv(k) && Safe(k, op) && !op.Spawn? && 0 < w < |k.procs| && k.procs[w].status.Normal?
    ensures !Step(k, op).procs[w].status.Suspended?
  {
    PrepareTimes(k, op, w);
    StepSlot(k, op, w);
    NormalStages(Prepare(k, op), Step(k, op), w, op.TimerIrq?);
  }

  lemma NormalStages(s: Kernel, r: Kernel, w: nat, fromTimer: bool)
    requires w < |s.procs| && w < |r.procs| && (s.procs[w].status.Normal? || IsDead(s.procs[w]))
    requires Moved(SlotBefore(s, fromTimer, w), r.procs[w], s.cpu, r.cpu, fromTimer)
    ensures !r.procs[w].status.Suspended?
  {
  }

  /** A runnable process stops being runnable only by being served. */
  lemma {:induction false} NotPassedOver(k: Kernel, ops: seq<Op>, w: nat)
    requires Inv(k) && CanRun(k, ops) && NoSpawn(ops) && 0 < w < |k.procs| && k.procs[w].status.Normal?
    requires !PassedOver(k, ops, w)
    ensures ServedWithin(k, ops, w)
    decreases |ops|
  {
    var s := Step(k, ops[0]);
    NormalNext(k, ops[0], w);
    if s.procs[w].status.Normal? {
      StepKeepsInv(k, ops[0]);
      var rest := ops[1..];
      assert forall i :: 0 <= i < |rest| ==> rest[i] == ops[i + 1];
      NotPassedOver(s, rest, w);
    }
  }

  /** Longest quantum anybody had during the run: processes only die, so it is the final one. */
  function FinalQuantum(k: Kernel, ops: seq<Op>): nat
    requires CanRun(k, ops)
  {
    Quantum(LiveCount(Run(k, ops).procs))
  }

  /** Milliseconds a process may run among n live ones. */
  function Quantum(n: nat): nat {
    if n == 0 then 1000 else 1000 / n
  }

  /**
   * Bounded waiting. Everybody started, nobody added, no time overflowing: a runnable process gets
   * the processor, or is killed, before more ticks pass than the others' leads in suspended time
   * plus their unused quanta, plus one. Any interleaving of pulls, pushes, kills, timers and user
   * code may happen between the ticks, and nobody need be running at first.
   */
  lemma BoundedWaiting(k: Kernel, ops: seq<Op>, w: nat)
    requires Ready(k, w) && CanRun(k, ops) && NoSpawn(ops) && Room(k, TickCount(ops))
    requires TickCount(ops) > Potential(k.procs, k.procs[w], w, FinalQuantum(k, ops)) + 1
    ensures ServedWithin(k, ops, w)
  {
    if PassedOver(k, ops, w) {
      LiveCountRun(k, ops);
      TicksPaidReady(k, ops, w, FinalQuantum(k, ops));
      assert false;
    }
    NotPassedOver(k, ops, w);
  }

  // ---------------------------------------------------------------- ticks alone

  function Ticks(n: nat): (r: seq<Op>)
    ensures |r| == n && forall i :: 0 <= i < n ==> r[i] == TimerIrq
  {
    seq(n, _ => TimerIrq)
  }

  ghost predicate SameLives(ps: seq<Process>, qs: seq<Process>) {
    |qs| == |ps| && forall i :: 0 <= i < |ps| ==> (IsLive(qs[i]) <==> IsLive(ps[i]))
  }

  lemma FiredLives(k: Kernel)
    requires Inv(k)
    ensures SameLives(k.procs, Fired(k).procs)
  {
    PushTimersKeepLookups(k.procs, DueTimers(k.timers.slots), 0);
  }

  lemma UpdateLives(s: Kernel)
    requires Inv(s)
    ensures SameLives(s.procs, Park(SchedulerUpdate(s, true)).procs)
  {
    UpdateSame(s, true);
  }

  lemma TickKeepsLife(k: Kernel)
    requires Inv(k)
    ensures Safe(k, TimerIrq) && Inv(Step(k, TimerIrq)) && SameLives(k.procs, Step(k, TimerIrq).procs)
  {
    OwnersDeliverable(k);
    StepKeepsInv(k, TimerIrq);
    FiredInv(k);
    FiredLives(k);
    UpdateLives(Fired(k));
  }

  lemma TicksSplit(k: Kernel, n: nat)
    requires Safe(k, TimerIrq) && n > 0
    ensures CanRun(k, Ticks(n)) <==> CanRun(Step(k, TimerIrq), Ticks(n - 1))
    ensures CanRun(k, Ticks(n)) ==> Run(k, Ticks(n)) == Run(Step(k, TimerIrq), Ticks(n - 1))
    ensures TickCount(Ticks(n)) == 1 + TickCount(Ticks(n - 1))
    ensures Ticks(n) != [] && Ticks(n)[0] == TimerIrq && Ticks(n)[1..] == Ticks(n - 1)
  {
    assert Ticks(n)[1..] == Ticks(n - 1);
  }

  /** The timer interrupt can always come again, and kills nobody. */
  lemma {:induction false} TicksRun(k: Kernel, n: nat)
    requires Inv(k)
    ensures CanRun(k, Ticks(n)) && TickCount(Ticks(n)) == n
    ensures LiveCount(Run(k, Ticks(n)).procs) == LiveCount(k.procs)
    decreases n
  {
    if n > 0 {
      TickKeepsLife(k);
      TicksSplit(k, n);
      var s := Step(k, TimerIrq);
      TicksRun(s, n - 1);
      LiveCountAgrees(k.procs, s.procs);
    }
  }

  /** The process in slot w runs after n ticks. */
  ghost predicate RunsAfter(k: Kernel, n: nat, w: nat) {
    CanRun(k, Ticks(n)) && RunsAt(Run(k, Ticks(n)).procs, w)
  }

  lemma RunsLater(k: Kernel, n: nat, w: nat)
    requires Safe(k, TimerIrq) && RunsAfter(Step(k, TimerIrq), n, w)
    ensures RunsAfter(k, n + 1, w)
  {
    TicksSplit(k, n + 1);
  }

  lemma ServedSplit(k: Kernel, n: nat, w: nat)
    requires Safe(k, TimerIrq) && CanRun(k, Ticks(n)) && ServedWithin(k, Ticks(n), w)
    ensures n > 0
    ensures var s := Step(k, TimerIrq);
            && w < |s.procs|
            && (s.procs[w].status.Running? || IsDead(s.procs[w])
                || (CanRun(s, Ticks(n - 1)) && ServedWithin(s, Ticks(n - 1), w)))
  {
    if n > 0 {
      TicksSplit(k, n);
    }
  }

  lemma {:induction false} ServedRuns(k: Kernel, n: nat, w: nat) returns (i: nat)
    requires Inv(k) && 0 < w < |k.procs| && IsLive(k.procs[w])
    requires CanRun(k, Ticks(n)) && ServedWithin(k, Ticks(n), w)
    ensures 0 < i <= n && RunsAfter(k, i, w)
    decreases n
  {
    TickKeepsLife(k);
    ServedSplit(k, n, w);
    var s := Step(k, TimerIrq);
    if s.procs[w].status.Running? {
      i := 1;
      assert Run(s, Ticks(0)) == s;
      RunsLater(k, 0, w);
    } else {
      var j := ServedRuns(s, n - 1, w);
      i := j + 1;
      RunsLater(k, j, w);
    }
  }

  /**
   * While nothing but the clock runs, a waiting process is running after one of the next n ticks, n
   * being its bound.
   */
  lemma TicksServe(k: Kernel, w: nat, n: nat) returns (i: nat)
    requires Ready(k, w) && Room(k, n)
    requires n > Potential(k.procs, k.procs[w], w, Quantum(LiveCount(k.procs))) + 1
    ensures 0 < i <= n && RunsAfter(k, i, w)
  {
    TicksRun(k, n);
    BoundedWaiting(k, Ticks(n), w);
    i := ServedRuns(k, n, w);
  }

  /** ALIVE, a process that has just been given the processor, and one that has waited for a tick. */
  function TwoProcesses(regs: Registers): Kernel {
    var alive := Created(0, 0, USER_ALIVE, false, false, 1, 0).(started := true);
    var first := Created(1, 0, 0, true, true, 2, 0).(started := true, status := Running);
    var second := Created(2, 0, 0, false, false, 3, 0).(started := true, status := Normal, suspendedTime := 10);
    Kernel([alive, first, second], 2, true, true, 0, TimerTable([], 0), regs, 2)
  }

  lemma ThreeParts(ps: seq<Process>, waiter: Process, w: nat, q: nat)
    requires |ps| == 3 && w == 2
    ensures LiveCount(ps)
            == (if IsLive(ps[0]) then 1 else 0) + (if IsLive(ps[1]) then 1 else 0) + (if IsLive(ps[2]) then 1 else 0)
    ensures Potential(ps, waiter, w, q) == Debt(ps[1], waiter, q)
  {
    var two, one, none := ps[..2], ps[..1], ps[..0];
    assert two[..1] == one && one[..0] == none && one[|one| - 1] == ps[0] && two[|two| - 1] == ps[1];
    assert LiveCount(none) == 0 && Potential(none, waiter, w, q) == 0;
    assert LiveCount(one) == LiveCount(one[..|one| - 1]) + (if IsLive(one[|one| - 1]) then 1 else 0);
    assert Potential(one, waiter, w, q) == Potential(one[..|one| - 1], waiter, w, q);
  }

  /** Two busy processes: the one waiting runs within 36 ticks, its third of a second and two ticks. */
  lemma TwoProcessesTakeTurns(regs: Registers) returns (i: nat)
    ensures 0 < i <= 36 && RunsAfter(TwoProcesses(regs), i, 2)
  {
    var k := TwoProcesses(regs);
    var ps := k.procs;
    assert LiveAt(ps, 1) && RunsAt(ps, 1);
    assert Inv(k);
    ThreeParts(ps, ps[2], 2, 333);
    i := TicksServe(k, 2, 36);
  }
}
