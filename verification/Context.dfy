/** Registers: a process gets back the processor state it lost, through any interleaving. */
module Context {
  import opened Words
  import opened Processes
  import opened Kernel
  import opened KernelInvariant
  import opened Delivery

  /** What the processor must hold when the process in slot i, now off the processor, resumes. */
  function ResumeImage(p: Process, i: nat): Registers {
    Selected(if p.status.Suspended? then p.registers.(eax := CurrentEventOf(i)) else p.registers, p.fixed.user)
  }

  /** r with the selectors of the GDT entries a process of this user runs in: kernel ones for ALIVE only. */
  function Selected(r: Registers, user: u32): Registers {
    r.(ds := if user == 0xFF then 16 else 32, cs := if user == 0xFF then 8 else 24)
  }

  /** The process in slot i stays alive, and is running for the first time at the end of the run. */
  predicate ResumesAtEnd(k: Kernel, ops: seq<Op>, i: nat)
    requires CanRun(k, ops)
    decreases |ops|
  {
    && ops != [] && i < |k.procs|
    && var s := Step(k, ops[0]);
       && IsLive(s.procs[i])
       && (s.procs[i].status.Running? <==> |ops| == 1)
       && (|ops| > 1 ==> ResumesAtEnd(s, ops[1..], i))
  }

  /** An entry off the processor keeps its image, or is entered with exactly that image on the processor. */
  ghost predicate KeepsImage(p: Process, r: Process, cpu': Registers, i: nat) {
    && r.started
    && (r.status.Running? ==> cpu' == ResumeImage(p, i))
    && (!r.status.Running? ==> ResumeImage(r, i) == ResumeImage(p, i))
  }

  lemma AwayStages(p: Process, q: Process, b: Process, r: Process, cpu: Registers, cpu': Registers, i: nat,
                   passed: Option<int>)
    requires p.started && IsLive(p) && !p.status.Running?
    requires q == p.(events := q.events)
    requires b == if passed.Some? then TickProcess(q, i, passed.value) else q
    requires Moved(b, r, cpu, cpu', passed.Some?)
    ensures KeepsImage(p, r, cpu', i)
  {
  }

  lemma AwayStep(k: Kernel, op: Op, i: nat)
    requires Inv(k) && Safe(k, op) && 0 < i < |k.procs| && k.procs[i].started
    requires IsLive(k.procs[i]) && !k.procs[i].status.Running? && IsLive(Step(k, op).procs[i])
    ensures KeepsImage(k.procs[i], Step(k, op).procs[i], Step(k, op).cpu, i)
  {
    PrepareSlot(k, op, i);
    StepSlot(k, op, i);
    AwaySlots(k, op, Prepare(k, op), Step(k, op), i);
  }

  lemma AwaySlots(k: Kernel, op: Op, s: Kernel, r: Kernel, i: nat)
    requires i < |k.procs| && i < |s.procs| && i < |r.procs|
    requires k.procs[i].started && IsLive(k.procs[i]) && !k.procs[i].status.Running? && IsLive(r.procs[i])
    requires s.procs[i] == k.procs[i].(events := s.procs[i].events) || IsDead(s.procs[i])
    requires Moved(SlotBefore(s, op.TimerIrq?, i), r.procs[i], s.cpu, r.cpu, op.TimerIrq?)
    ensures KeepsImage(k.procs[i], r.procs[i], r.cpu, i)
  {
    var passed := if op.TimerIrq? && Active(s) then Some(s.updates * 10 + 10) else None;
    AwayStages(k.procs[i], s.procs[i], SlotBefore(s, op.TimerIrq?, i), r.procs[i], s.cpu, r.cpu, i, passed);
  }

  /** Whatever happens meanwhile, a process off the processor resumes with its image. */
  lemma {:induction false} ImagePreserved(k: Kernel, ops: seq<Op>, i: nat)
    requires Inv(k) && CanRun(k, ops) && 0 < i < |k.procs| && k.procs[i].started
    requires IsLive(k.procs[i]) && !k.procs[i].status.Running? && ResumesAtEnd(k, ops, i)
    ensures Run(k, ops).cpu == ResumeImage(k.procs[i], i)
    decreases |ops|
  {
    var s := Step(k, ops[0]);
    AwayStep(k, ops[0], i);
    StepKeepsInv(k, ops[0]);
    if |ops| == 1 {
      assert Run(s, ops[1..]) == s;
    } else {
      ImagePreserved(s, ops[1..], i);
    }
  }

  /**
   * A process leaves the processor alive only by a tick or by waiting for an event, and either way its
   * frame is saved.
   */
  lemma LeavingSaves(k: Kernel, op: Op, i: nat)
    requires Inv(k) && Safe(k, op) && 0 < i < |k.procs| && k.procs[i].status.Running?
    requires IsLive(Step(k, op).procs[i]) && !Step(k, op).procs[i].status.Running?
    ensures Step(k, op).procs[i].registers == k.cpu && Step(k, op).procs[i].started
    ensures (op.TimerIrq? && Step(k, op).procs[i].status.Normal?)
            || (op.Pull? && Step(k, op).procs[i].status.Suspended?)
  {
    assert HasRun(k.procs[i]);
    PrepareSlot(k, op, i);
    StepSlot(k, op, i);
    assert op.TimerIrq? ==> Prepare(k, op).cpu == k.cpu;
    LeavingStages(k, op, Prepare(k, op), Step(k, op), PushedAt(k, op, i), i);
  }

  lemma LeavingStages(k: Kernel, op: Op, s: Kernel, r: Kernel, pushed: seq<Event>, i: nat)
    requires i < |k.procs| && i < |s.procs| && i < |r.procs|
    requires k.procs[i].started && k.procs[i].status.Running? && IsLive(r.procs[i]) && !r.procs[i].status.Running?
    requires op.TimerIrq? ==> s.cpu == k.cpu
    requires PreparedSlot(k.procs[i], pushed, s.procs[i], k.cpu, op.Pull? && Current(k) == Some(i))
             || IsDead(s.procs[i])
    requires Moved(SlotBefore(s, op.TimerIrq?, i), r.procs[i], s.cpu, r.cpu, op.TimerIrq?)
    ensures r.procs[i].registers == k.cpu && r.procs[i].started
    ensures (op.TimerIrq? && r.procs[i].status.Normal?) || (op.Pull? && r.procs[i].status.Suspended?)
  {
  }

  /**
   * Losing the processor at `op` and getting it back at the end of `ops` leaves the registers as
   * they were, up to the selectors fixed by the user and, if the process had asked for an event,
   * eax naming the event that woke it.
   */
  lemma ContextPreserved(k: Kernel, op: Op, ops: seq<Op>, i: nat)
    requires Inv(k) && Safe(k, op) && 0 < i < |k.procs| && k.procs[i].status.Running?
    requires IsLive(Step(k, op).procs[i]) && !Step(k, op).procs[i].status.Running?
    requires CanRun(Step(k, op), ops) && ResumesAtEnd(Step(k, op), ops, i)
    ensures Run(Step(k, op), ops).cpu
            == Selected(if op.Pull? then k.cpu.(eax := CurrentEventOf(i)) else k.cpu, k.procs[i].fixed.user)
  {
    LeavingSaves(k, op, i);
    LiveSlotKeepsUid(k, op, i);
    StepKeepsInv(k, op);
    ImagePreserved(Step(k, op), ops, i);
  }
}
