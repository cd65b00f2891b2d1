/** Timers inside the kernel: what a kernel run does to the timer table is a run of timer operations. */
module TimerRuns {
  import opened Words
  import T = Timers
  import opened Processes
  import opened Kernel
  import opened KernelInvariant
  import opened Delivery

  /** The timer operation hidden in a kernel operation; a kill cancels everything of its victim. */
  function TimerOps(k: Kernel, op: Op): seq<T.TimerOp>
    requires Safe(k, op)
  {
    match op
    case TimerIrq => [T.Tick]
    case TimerStart(millis) => [T.Start(k.procs[Current(k).value].fixed.uid, millis)]
    case TimerCancel(id) => [T.Cancel(k.procs[Current(k).value].fixed.uid, id)]
    case Kill(victim) =>
      (match KillTarget(k, Current(k).value, victim)
       case Some(i) => [T.Cancel(k.procs[i].fixed.uid, 0)]
       case None => [])
    case _ => []
  }

  function AllTimerOps(k: Kernel, ops: seq<Op>): seq<T.TimerOp>
    requires CanRun(k, ops)
    decreases |ops|
  {
    if ops == [] then [] else TimerOps(k, ops[0]) + AllTimerOps(Step(k, ops[0]), ops[1..])
  }

  /** Times a timer with this id fires, pushing its event to its owner, in a kernel run. */
  function TimerFires(k: Kernel, ops: seq<Op>, id: u32): nat
    requires CanRun(k, ops)
    decreases |ops|
  {
    if ops == [] then 0
    else
      (if ops[0].TimerIrq? then T.CountId(T.DueTimers(k.timers.slots), id) else 0)
      + TimerFires(Step(k, ops[0]), ops[1..], id)
  }

  lemma StepTimers(k: Kernel, op: Op)
    requires Inv(k) && Safe(k, op)
    ensures Step(k, op).timers == T.RunTimers(k.timers, TimerOps(k, op))
  {
    PrepareTimers(k, op);
    UpdateLeavesTimers(k, op);
  }

  lemma UpdateLeavesTimers(k: Kernel, op: Op)
    requires Inv(k) && Safe(k, op)
    ensures Step(k, op).timers == Prepare(k, op).timers
  {
    PrepareKeepsInv(k, op);
    SettleTimers(Prepare(k, op), Reschedules(k, op), op.TimerIrq?);
  }

  lemma SettleTimers(s: Kernel, rescheduled: bool, fromTimer: bool)
    requires |s.procs| > 0 && (rescheduled ==> Schedulable(s, fromTimer))
    ensures Park(if rescheduled then SchedulerUpdate(s, fromTimer) else s).timers == s.timers
  {
    if rescheduled {
      UpdateSame(s, fromTimer);
    }
  }

  lemma PrepareTimers(k: Kernel, op: Op)
    requires Safe(k, op)
    ensures Prepare(k, op).timers == T.RunTimers(k.timers, TimerOps(k, op))
  {
    match op {
      case TimerIrq =>
      case StartAlive =>
      case Spawn(_, _, _, _, _, _) =>
      case Pull =>
      case Queue(_, _) =>
      case Kill(_) =>
      case Key(_) =>
      case TimerStart(_) =>
      case TimerCancel(_) =>
      case User(_) =>
    }
  }

  lemma {:induction false} SplitRun(tt: T.TimerTable, a: seq<T.TimerOp>, b: seq<T.TimerOp>, id: u32)
    ensures T.FireCount(tt, a + b, id) == T.FireCount(tt, a, id) + T.FireCount(T.RunTimers(tt, a), b, id)
    ensures T.TimerTicks(a + b) == T.TimerTicks(a) + T.TimerTicks(b)
    decreases |a|
  {
    if a == [] {
      assert a + b == b;
    } else {
      assert (a + b)[1..] == a[1..] + b;
      SplitRun(T.ApplyTimer(tt, a[0]), a[1..], b, id);
    }
  }

  /** Ticks and firings of a kernel run are those of its timer operations. */
  lemma {:induction false} RunProjects(k: Kernel, ops: seq<Op>, id: u32)
    requires Inv(k) && CanRun(k, ops)
    ensures TimerFires(k, ops, id) == T.FireCount(k.timers, AllTimerOps(k, ops), id)
    ensures TickCount(ops) == T.TimerTicks(AllTimerOps(k, ops))
    decreases |ops|
  {
    if ops != [] {
      var s := Step(k, ops[0]);
      StepKeepsInv(k, ops[0]);
      StepTimers(k, ops[0]);
      RunProjects(s, ops[1..], id);
      SplitRun(k.timers, TimerOps(k, ops[0]), AllTimerOps(s, ops[1..]), id);
      OneStepFires(k, ops[0], id);
    }
  }

  lemma OneStepFires(k: Kernel, op: Op, id: u32)
    requires Safe(k, op)
    ensures T.FireCount(k.timers, TimerOps(k, op), id)
            == if op.TimerIrq? then T.CountId(T.DueTimers(k.timers.slots), id) else 0
    ensures T.TimerTicks(TimerOps(k, op)) == if op.TimerIrq? then 1 else 0
  {
    var ops := TimerOps(k, op);
    assert |ops| <= 1;
    if ops != [] {
      assert ops == [ops[0]] && ops[1..] == [];
      assert T.FireCount(T.ApplyTimer(k.timers, ops[0]), [], id) == 0;
    }
  }

  /**
   * In the running kernel a pending timer whose owner neither cancels it nor dies fires exactly
   * once, on tick max(1, ceil(m/10)), whatever else is scheduled, started, pushed or killed.
   */
  lemma PendingTimerFiresOnce(k: Kernel, ops: seq<Op>, j: nat)
    requires Inv(k) && CanRun(k, ops) && T.IdsValid(k.timers) && T.UnfinishedAt(k.timers.slots, j)
    requires T.NeverCancelled(AllTimerOps(k, ops), k.timers.slots[j].uid, k.timers.slots[j].id)
    requires k.timers.ids + T.TimerStarts(AllTimerOps(k, ops)) < WORD
    ensures TimerFires(k, ops, k.timers.slots[j].id)
            == if TickCount(ops) >= T.FiringTick(k.timers.slots[j].left) then 1 else 0
  {
    RunProjects(k, ops, k.timers.slots[j].id);
    T.FiresExactlyOnce(k.timers, AllTimerOps(k, ops), j);
  }

  // ---------------------------------------------------------------- the events themselves

  /** An event as the timer with this id pushes it. */
  predicate IsTimerEvent(e: Event, id: u32) {
    e.kind.EventTimer? && e.d0 == id
  }

  function CountTimer(es: seq<Event>, id: u32): nat {
    if es == [] then 0 else CountTimer(es[..|es| - 1], id) + (if IsTimerEvent(es[|es| - 1], id) then 1 else 0)
  }

  lemma {:induction false} CountJoins(a: seq<Event>, b: seq<Event>, id: u32)
    ensures CountTimer(a + b, id) == CountTimer(a, id) + CountTimer(b, id)
  {
    if b == [] {
      assert a + b == a;
    } else {
      assert (a + b)[..|a + b| - 1] == a + b[..|b| - 1];
      CountJoins(a, b[..|b| - 1], id);
    }
  }

  /** Look-alikes of such an event that slot i is sent by other means than a timer: queue_event or a key. */
  ghost function Forged(k: Kernel, ops: seq<Op>, i: nat, id: u32): nat
    requires CanRun(k, ops)
    decreases |ops|
  {
    if ops == [] then 0
    else
      (if ops[0].TimerIrq? then 0 else CountTimer(PushedAt(k, ops[0], i), id))
      + Forged(Step(k, ops[0]), ops[1..], i, id)
  }

  /** Due timers with this id push their events to slot i if it owns them, and nobody else's events count. */
  lemma {:induction false} DueEvents(ps: seq<Process>, due: seq<T.Timer>, i: nat, id: u32)
    requires forall t :: t in due && t.id == id ==> FindUid(ps, t.uid) == Some(i)
    ensures CountTimer(TimerEventsFor(ps, due, i), id) == T.CountId(due, id)
  {
    if due != [] {
      var front, t := due[..|due| - 1], due[|due| - 1];
      assert t in due && forall x :: x in front ==> x in due;
      DueEvents(ps, front, i, id);
      CountJoins(TimerEventsFor(ps, front, i), if FindUid(ps, t.uid) == Some(i) then [TimerEvent(t)] else [], id);
      CountOne(TimerEvent(t), id);
    }
  }

  lemma CountOne(e: Event, id: u32)
    ensures CountTimer([e], id) == (if IsTimerEvent(e, id) then 1 else 0) && CountTimer([], id) == 0
  {
    assert [e][..0] == [];
  }

  /** The timer with this id, if any is pending, belongs to the process in slot i. */
  ghost predicate OwnedBy(k: Kernel, id: u32, i: nat) {
    forall j :: T.UnfinishedAt(k.timers.slots, j) && k.timers.slots[j].id == id
      ==> FindUid(k.procs, k.timers.slots[j].uid) == Some(i)
  }

  /** A live process keeps its slot while it lives. */
  lemma OwnerStays(k: Kernel, op: Op, uid: nat, i: nat)
    requires Inv(k) && Safe(k, op) && FindUid(k.procs, uid) == Some(i) && uid != ALIVE
    requires FindUid(Step(k, op).procs, uid).Some?
    ensures FindUid(Step(k, op).procs, uid) == Some(i)
  {
    assert i != ALIVE;
    LiveSlotKeepsUid(k, op, i);
    StepKeepsInv(k, op);
  }

  /** A timer with an old id was there before the operation. */
  lemma PendingOrigin(k: Kernel, op: Op, j: nat)
    requires Inv(k) && Safe(k, op) && T.UnfinishedAt(Step(k, op).timers.slots, j)
    requires Step(k, op).timers.slots[j].id <= k.timers.ids && (op.TimerStart? ==> k.timers.ids + 1 < WORD)
    ensures T.UnfinishedAt(k.timers.slots, j)
    ensures k.timers.slots[j].id == Step(k, op).timers.slots[j].id
    ensures k.timers.slots[j].uid == Step(k, op).timers.slots[j].uid
  {
    StepTimers(k, op);
    OneTimerOp(k, op);
    if TimerOps(k, op) != [] {
      T.UnfinishedOrigin(k.timers, TimerOps(k, op)[0], j);
    }
  }

  lemma OwnedStays(k: Kernel, op: Op, id: u32, i: nat)
    requires Inv(k) && Safe(k, op) && OwnedBy(k, id, i) && 0 < id <= k.timers.ids
    requires op.TimerStart? ==> k.timers.ids + 1 < WORD
    ensures OwnedBy(Step(k, op), id, i)
  {
    var s := Step(k, op);
    StepKeepsInv(k, op);
    forall j | T.UnfinishedAt(s.timers.slots, j) && s.timers.slots[j].id == id
      ensures FindUid(s.procs, s.timers.slots[j].uid) == Some(i)
    {
      PendingOrigin(k, op, j);
      OwnerStays(k, op, s.timers.slots[j].uid, i);
    }
  }

  lemma OneTimerOp(k: Kernel, op: Op)
    requires Safe(k, op)
    ensures var ts := TimerOps(k, op);
            && |ts| <= 1 && (ts != [] && ts[0].Start? ==> op.TimerStart?)
            && T.RunTimers(k.timers, ts) == (if ts == [] then k.timers else T.ApplyTimer(k.timers, ts[0]))
            && T.TimerStarts(ts) == (if op.TimerStart? then 1 else 0)
  {
    var ts := TimerOps(k, op);
    if ts != [] {
      assert ts == [ts[0]] && ts[1..] == [];
      assert T.RunTimers(T.ApplyTimer(k.timers, ts[0]), []) == T.ApplyTimer(k.timers, ts[0]);
      assert T.TimerStarts([]) == 0;
    }
  }

  lemma TickEvents(k: Kernel, id: u32, i: nat)
    requires Inv(k) && i < |k.procs| && OwnedBy(k, id, i)
    ensures Safe(k, TimerIrq)
    ensures CountTimer(PushedAt(k, TimerIrq, i), id) == T.CountId(T.DueTimers(k.timers.slots), id)
  {
    OwnersDeliverable(k);
    DueUnfinished(k.timers.slots);
    PushedIs(k, TimerIrq, i);
    DueEvents(k.procs, T.DueTimers(k.timers.slots), i, id);
  }

  lemma {:induction false} StartsJoin(a: seq<T.TimerOp>, b: seq<T.TimerOp>)
    ensures T.TimerStarts(a + b) == T.TimerStarts(a) + T.TimerStarts(b)
    decreases |a|
  {
    if a == [] {
      assert a + b == b;
    } else {
      assert (a + b)[1..] == a[1..] + b;
      StartsJoin(a[1..], b);
    }
  }

  /** An operation uses up an id if it starts a timer. */
  lemma IdsUsed(k: Kernel, op: Op)
    requires Inv(k) && Safe(k, op) && k.timers.ids + T.TimerStarts(TimerOps(k, op)) < WORD
    ensures op.TimerStart? ==> k.timers.ids + 1 < WORD
    ensures Step(k, op).timers.ids == k.timers.ids + T.TimerStarts(TimerOps(k, op))
  {
    OneTimerOp(k, op);
    StepTimers(k, op);
    WrapNext(k.timers.ids);
  }

  lemma WrapNext(x: u32)
    ensures x + 1 < WORD ==> Wrap(x + 1) == x + 1
  {
  }

  lemma IdsLeft(k: Kernel, ops: seq<Op>)
    requires Inv(k) && ops != [] && CanRun(k, ops) && k.timers.ids + T.TimerStarts(AllTimerOps(k, ops)) < WORD
    ensures var s := Step(k, ops[0]);
            && (ops[0].TimerStart? ==> k.timers.ids + 1 < WORD) && k.timers.ids <= s.timers.ids
            && s.timers.ids + T.TimerStarts(AllTimerOps(s, ops[1..]))
               == k.timers.ids + T.TimerStarts(AllTimerOps(k, ops))
  {
    StartsJoin(TimerOps(k, ops[0]), AllTimerOps(Step(k, ops[0]), ops[1..]));
    IdsUsed(k, ops[0]);
  }

  /**
   * Every firing of the timer is an event its owner is sent, and nobody is sent such an event
   * otherwise, look-alikes aside.
   */
  lemma {:induction false} FiringsArePushes(k: Kernel, ops: seq<Op>, id: u32, i: nat)
    requires Inv(k) && CanRun(k, ops) && i < |k.procs| && OwnedBy(k, id, i) && 0 < id <= k.timers.ids
    requires k.timers.ids + T.TimerStarts(AllTimerOps(k, ops)) < WORD
    ensures CountTimer(Pushed(k, ops, i), id) == Forged(k, ops, i, id) + TimerFires(k, ops, id)
    decreases |ops|
  {
    if ops != [] {
      IdsLeft(k, ops);
      StepKeepsInv(k, ops[0]);
      OwnedStays(k, ops[0], id, i);
      FiringsArePushes(Step(k, ops[0]), ops[1..], id, i);
      CountJoins(PushedAt(k, ops[0], i), Pushed(Step(k, ops[0]), ops[1..], i), id);
      if ops[0].TimerIrq? {
        TickEvents(k, id, i);
      }
    }
  }

  /** Ids are in order in every state a run from boot reaches before the counter wraps. */
  lemma {:induction false} RunIdsValid(k: Kernel, ops: seq<Op>)
    requires Inv(k) && CanRun(k, ops) && T.IdsValid(k.timers)
    requires k.timers.ids + T.TimerStarts(AllTimerOps(k, ops)) < WORD
    ensures T.IdsValid(Run(k, ops).timers)
    ensures Run(k, ops).timers.ids == k.timers.ids + T.TimerStarts(AllTimerOps(k, ops))
    decreases |ops|
  {
    if ops != [] {
      IdsLeft(k, ops);
      StepKeepsInv(k, ops[0]);
      StepTimers(k, ops[0]);
      OneTimerOp(k, ops[0]);
      if TimerOps(k, ops[0]) != [] {
        T.IdsStayValid(k.timers, TimerOps(k, ops[0])[0]);
      }
      RunIdsValid(Step(k, ops[0]), ops[1..]);
    }
  }

  /**
   * In every state reached from boot: a pending timer that its owner neither cancels nor leaves
   * behind by dying puts exactly one event with its id into the owner's queue, on tick
   * max(1, ceil(m/10)), counted apart from look-alikes other processes queue.
   */
  lemma PendingTimerEventOnce(k0: Kernel, before: seq<Op>, ops: seq<Op>, j: nat, i: nat)
    requires exists pd, stack, main, regs, left :: k0 == Boot(pd, stack, main, regs, left)
    requires CanRun(k0, before) && T.TimerStarts(AllTimerOps(k0, before)) < WORD
    requires var k := Run(k0, before);
             && CanRun(k, ops) && T.UnfinishedAt(k.timers.slots, j)
             && var t := k.timers.slots[j];
                && FindUid(k.procs, t.uid) == Some(i) && T.NeverCancelled(AllTimerOps(k, ops), t.uid, t.id)
                && k.timers.ids + T.TimerStarts(AllTimerOps(k, ops)) < WORD
    ensures var k := Run(k0, before);
            var t := k.timers.slots[j];
            CountTimer(Pushed(k, ops, i), t.id)
            == Forged(k, ops, i, t.id) + if TickCount(ops) >= T.FiringTick(t.left) then 1 else 0
  {
    var pd, stack, main, regs, left :| k0 == Boot(pd, stack, main, regs, left);
    BootInv(pd, stack, main, regs, left);
    RunKeepsInv(k0, before);
    RunIdsValid(k0, before);
    var k := Run(k0, before);
    PendingTimerFiresOnce(k, ops, j);
    FiringsArePushes(k, ops, k.timers.slots[j].id, i);
  }
}
