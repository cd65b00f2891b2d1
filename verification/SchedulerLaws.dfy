/**
 * What one scheduler update does, said of table entries, registers and numbers alone: who keeps
 * the processor and for how long, who gets it, and what time and events each entry is left with.
 */
module SchedulerLaws {
  import opened Words
  import opened Processes
  import opened Kernel
  import opened KernelInvariant
  import opened Delivery

  // ---------------------------------------------------------------- entries in an update

  /** Runnable once dt milliseconds have been charged: dt is 0 unless the timer came. */
  predicate Ready(p: Process, dt: nat) {
    p.status.Normal? || (dt > 0 && p.status.Suspended? && p.events != [])
  }

  /** The waiting time of p after dt milliseconds times its priority plus one, as a signed word. */
  function ScoreAfter(p: Process, dt: nat): int {
    var waited := (p.suspendedTime + dt) % 0x1_0000_0000;
    var word := waited * (p.fixed.priority + 1) % 0x1_0000_0000;
    if word < 0x8000_0000 then word else word - 0x1_0000_0000
  }

  /** Runnable, and never run or with a positive score. */
  predicate Candidate(p: Process, dt: nat) {
    Ready(p, dt) && (!p.started || ScoreAfter(p, dt) > 0)
  }

  predicate AnyCandidate(ps: seq<Process>, dt: nat) {
    exists j :: 0 <= j < |ps| && Candidate(ps[j], dt)
  }

  /** c is the first candidate never run, or, if all have run, the first with the highest score. */
  predicate BestCandidate(ps: seq<Process>, dt: nat, c: nat) {
    && c < |ps| && Candidate(ps[c], dt)
    && if !ps[c].started then forall j :: 0 <= j < c && Ready(ps[j], dt) ==> ps[j].started
       else forall j :: 0 <= j < |ps| && Ready(ps[j], dt) ==>
              && ps[j].started && ScoreAfter(ps[j], dt) <= ScoreAfter(ps[c], dt)
              && (j < c ==> ScoreAfter(ps[j], dt) < ScoreAfter(ps[c], dt))
  }

  /** Time a timer update charges. */
  function Elapsed(k: Kernel, fromTimer: bool): nat {
    if fromTimer then k.updates * 10 + 10 else 0
  }

  /** Live entries, each counted once. */
  function LiveSlots(ps: seq<Process>): set<nat> {
    set i: nat | i < |ps| && !ps[i].status.Dead?
  }

  lemma {:induction false} LiveSlotsCounted(ps: seq<Process>)
    ensures LiveCount(ps) == |LiveSlots(ps)|
  {
    if ps != [] {
      var n := |ps| - 1;
      LiveSlotsCounted(ps[..n]);
      if ps[n].status.Dead? {
        assert LiveSlots(ps) == LiveSlots(ps[..n]);
      } else {
        assert LiveSlots(ps) == LiveSlots(ps[..n]) + {n};
      }
    }
  }

  /**
   * The registers the process in slot c gets the processor with. The first time: all zero but the
   * entry point, the stack and the flags. Later: those it left with, and, if it was waiting for an
   * event, the address of the event in eax. The selectors always follow from its user.
   */
  function Launched(p: Process, c: nat): Registers {
    var ds := if p.fixed.user == 0xFF then 16 else 32;
    var cs := if p.fixed.user == 0xFF then 8 else 24;
    if !p.started then
      Registers(ds, cs, Num(0), General(
        edi := 0, esi := 0, ebp := p.fixed.stack, esp := p.fixed.stack, ebx := 0, edx := 0, ecx := 0,
        intNo := 0, code := 0, eip := p.fixed.main, eflags := 0x202, useresp := p.fixed.stack, ss := 0))
    else
      Registers(ds, cs, if p.status.Suspended? then CurrentEventOf(c) else p.registers.eax, p.registers.general)
  }

  /** Slot c has the processor in r, with its registers and its directory. */
  predicate Runs(k: Kernel, r: Kernel, c: nat) {
    && c < |k.procs| && c < |r.procs| && r.procs[c].status.Running? && r.procs[c].started
    && r.cpu == Launched(k.procs[c], c) == r.procs[c].registers && r.loaded == k.procs[c].fixed.pd
  }

  // ---------------------------------------------------------------- the scan

  /** The table as the scan finds it. */
  lemma ChargedEntry(p: Process, i: nat, dt: nat)
    ensures var q := TickProcess(p, i, dt);
            && (dt > 0 ==> (q.status.Normal? <==> Ready(p, dt)) && (Ready(p, dt) ==> Score(q) == ScoreAfter(p, dt)))
            && (p.status.Normal? ==> Score(p) == ScoreAfter(p, 0))
            && q.started == p.started
  {
    ScoreIs(p, p, 0);
    if Ready(p, dt) {
      ScoreIs(p, TickProcess(p, i, dt), dt);
    }
  }

  lemma ScoreIs(p: Process, q: Process, dt: nat)
    requires q.fixed == p.fixed && q.suspendedTime == Wrap(p.suspendedTime + dt)
    ensures Score(q) == ScoreAfter(p, dt)
  {
  }

  lemma PickIsBest(ps: seq<Process>, dt: nat)
    ensures var qs := if dt > 0 then TickAll(ps, dt) else ps;
            && (Pick(qs).None? <==> !AnyCandidate(ps, dt))
            && (Pick(qs).Some? ==> BestCandidate(ps, dt, Pick(qs).value))
  {
    var qs := if dt > 0 then TickAll(ps, dt) else ps;
    forall i | 0 <= i < |ps|
      ensures && (qs[i].status.Normal? <==> Ready(ps[i], dt)) && qs[i].started == ps[i].started
              && (Ready(ps[i], dt) ==> Score(qs[i]) == ScoreAfter(ps[i], dt))
    {
      ChargedEntry(ps[i], i, dt);
    }
    if Pick(qs).Some? {
      assert Ready(ps[Pick(qs).value], dt);
      assert Candidate(ps[Pick(qs).value], dt);
    }
  }

  /** There is only one best candidate. */
  lemma BestIsPick(ps: seq<Process>, dt: nat, c: nat)
    requires BestCandidate(ps, dt, c)
    ensures Pick(if dt > 0 then TickAll(ps, dt) else ps) == Some(c)
  {
    PickIsBest(ps, dt);
    assert AnyCandidate(ps, dt);
    var d := Pick(if dt > 0 then TickAll(ps, dt) else ps).value;
    assert Ready(ps[c], dt) && Ready(ps[d], dt);
  }

  // ---------------------------------------------------------------- who runs afterwards

  /**
   * After dt milliseconds more p has not run for longer than a second divided by the number of
   * live processes, and a tenth of a second more for each level of priority.
   */
  predicate WithinQuantum(ps: seq<Process>, p: Process, dt: nat) {
    var n := |LiveSlots(ps)|;
    n > 0 && (p.runningTime + dt) % 0x1_0000_0000 <= 1000 / n + p.fixed.priority * 100
  }

  /**
   * The process that has the processor keeps it over a timer update, registers and directory with
   * it, if and only if it is within its quantum or nobody else can run.
   */
  lemma KeepsProcessorIff(k: Kernel, h: nat)
    requires Schedulable(k, true) && k.enabled && k.canUpdate && h < |k.procs| && k.procs[h].status.Running?
    ensures var r := SchedulerUpdate(k, true);
            var dt := k.updates * 10 + 10;
            && h < |r.procs|
            && (r.procs[h].status.Running? <==> WithinQuantum(k.procs, k.procs[h], dt) || !AnyCandidate(k.procs, dt))
            && (r.procs[h].status.Running? ==> r.cpu == k.cpu && r.loaded == k.loaded)
  {
    LiveCountPositive(k.procs, h);
    LiveSlotsCounted(k.procs);
    PickIsBest(k.procs, k.updates * 10 + 10);
    HolderLeftIff(k, h, TickAll(k.procs, k.updates * 10 + 10), LiveCount(k.procs));
    ChargedHolder(k.procs, h, k.updates * 10 + 10, LiveCount(k.procs));
  }

  lemma HolderLeftIff(k: Kernel, h: nat, ps: seq<Process>, n: nat)
    requires Schedulable(k, true) && k.enabled && k.canUpdate && h < |k.procs| && k.procs[h].status.Running?
    requires ps == TickAll(k.procs, k.updates * 10 + 10) && n == LiveCount(k.procs) > 0
    ensures var r := SchedulerUpdate(k, true);
            && h < |r.procs|
            && (r.procs[h].status.Running? <==> !(OverQuantum(ps[h], n) && Pick(ps).Some?))
            && (r.procs[h].status.Running? ==> r.cpu == k.cpu && r.loaded == k.loaded)
  {
    HolderIs(k, h);
    TickedIs(k, ps, k.updates * 10 + 10);
    var t := k.(procs := ps, updates := 0);
    TickedShape(k);
    QuantumRuns(t, h, n);
    assert SchedulerUpdate(k, true) == CheckQuantum(t, h, n);
  }

  lemma ChargedHolder(ps: seq<Process>, h: nat, dt: nat, n: nat)
    requires h < |ps| && ps[h].status.Running? && n == |LiveSlots(ps)| > 0
    ensures OverQuantum(TickAll(ps, dt)[h], n) <==> !WithinQuantum(ps, ps[h], dt)
  {
    assert TickAll(ps, dt)[h] == TickProcess(ps[h], h, dt);
  }

  lemma HolderIs(k: Kernel, h: nat)
    requires OneRunning(k.procs) && h < |k.procs| && k.procs[h].status.Running?
    ensures LastRunning(k.procs) == Some(h)
  {
  }

  /**
   * When the processor is given away, because nobody has it or its holder's time is up, it goes to
   * the best candidate.
   */
  lemma GoesToBest(k: Kernel, fromTimer: bool, c: nat)
    requires Schedulable(k, fromTimer) && k.enabled && k.canUpdate && BestCandidate(k.procs, Elapsed(k, fromTimer), c)
    requires forall h :: 0 <= h < |k.procs| && k.procs[h].status.Running? ==>
               !SchedulerUpdate(k, fromTimer).procs[h].status.Running?
    ensures Runs(k, SchedulerUpdate(k, fromTimer), c)
  {
    BestIsPick(k.procs, Elapsed(k, fromTimer), c);
    var d := OneRuns(k, fromTimer);
    assert d == c;
    LaunchedIs(k, fromTimer, c);
  }

  /** Who runs after an update: the scan's pick, or the holder, or ALIVE if there is neither. */
  lemma OneRuns(k: Kernel, fromTimer: bool) returns (d: nat)
    requires Schedulable(k, fromTimer) && k.enabled && k.canUpdate
    ensures LeavesRunning(k, fromTimer, SchedulerUpdate(k, fromTimer), d)
    ensures || Pick(Scanned(k, fromTimer)) == Some(d)
            || k.procs[d].status.Running?
            || (Pick(Scanned(k, fromTimer)).None? && NoneRunning(k.procs))
  {
    UpdateLeavesOneRunning(k, fromTimer);
    d := Chosen(k, fromTimer);
  }

  lemma LaunchedIs(k: Kernel, fromTimer: bool, c: nat)
    requires Schedulable(k, fromTimer) && k.enabled && k.canUpdate && 0 < c < |k.procs|
    requires Ready(k.procs[c], Elapsed(k, fromTimer)) && SchedulerUpdate(k, fromTimer).procs[c].status.Running?
    ensures SchedulerUpdate(k, fromTimer).procs[c].registers == Launched(k.procs[c], c)
    ensures SchedulerUpdate(k, fromTimer).procs[c].started
    ensures SchedulerUpdate(k, fromTimer).procs[c].fixed == k.procs[c].fixed
  {
    UpdateSlot(k, fromTimer, c);
  }

  /** When nobody has the processor and there is no candidate, ALIVE is entered at its beginning. */
  lemma GoesToAlive(k: Kernel, fromTimer: bool)
    requires Schedulable(k, fromTimer) && k.enabled && k.canUpdate
    requires NoneRunning(k.procs) && !AnyCandidate(k.procs, Elapsed(k, fromTimer))
    ensures Runs(k.(procs := k.procs[ALIVE := k.procs[ALIVE].(started := false)]), SchedulerUpdate(k, fromTimer), ALIVE)
  {
    PickIsBest(k.procs, Elapsed(k, fromTimer));
    UpdateLeavesOneRunning(k, fromTimer);
  }

  /** Switched off, an update does nothing; held up, it counts the ticks. */
  lemma UpdateGuards(k: Kernel, fromTimer: bool)
    requires |k.procs| > 0
    ensures !k.enabled ==> SchedulerUpdate(k, fromTimer) == k
    ensures k.enabled && !k.canUpdate ==>
              SchedulerUpdate(k, fromTimer) == k.(updates := k.updates + if fromTimer then 1 else 0)
  {
  }

  // ---------------------------------------------------------------- what entries are left with

  /** Times and queue of an entry before (p) and after (r) dt milliseconds were charged. */
  predicate TimesCharged(p: Process, r: Process, dt: nat) {
    && r.fixed == p.fixed
    && r.runningTime == (if p.status.Running? then (p.runningTime + dt) % 0x1_0000_0000 else p.runningTime)
    && r.suspendedTime == (if p.status.Normal? || p.status.Suspended? then (p.suspendedTime + dt) % 0x1_0000_0000
                           else p.suspendedTime)
    && (if p.status.Suspended? && p.events != []
        then r.currentEvent == p.events[0] && r.events == p.events[1..]
        else r.currentEvent == p.currentEvent && r.events == p.events)
  }

  /** A timer update charges every entry the time since the last one, skipped ones included. */
  lemma EntriesCharged(k: Kernel, i: nat)
    requires Schedulable(k, true) && k.enabled && k.canUpdate && i < |k.procs|
    ensures var r := SchedulerUpdate(k, true);
            && r.updates == 0 && |r.procs| == |k.procs|
            && TimesCharged(k.procs[i], r.procs[i], k.updates * 10 + 10)
            && (k.procs[i].status.Dead? ==> r.procs[i] == k.procs[i])
            && (i != ALIVE && k.procs[i].status.Suspended? && k.procs[i].events == [] ==> r.procs[i].status.Suspended?)
            && (Ready(k.procs[i], k.updates * 10 + 10) && !r.procs[i].status.Running? ==> r.procs[i].status.Normal?)
  {
    UpdateSame(k, true);
    assert Same(k.procs[i], SchedulerUpdate(k, true).procs[i]);
    if i > 0 {
      UpdateSlot(k, true, i);
      var r := SchedulerUpdate(k, true);
      EntryCharged(k.procs[i], i, k.updates * 10 + 10, r.procs[i], k.cpu, r.cpu);
    } else {
      AliveCharged(k);
    }
  }

  lemma EntryCharged(p: Process, i: nat, dt: nat, r: Process, cpu: Registers, cpu': Registers)
    requires dt > 0 && Moved(TickProcess(p, i, dt), r, cpu, cpu', true)
    ensures TimesCharged(p, r, dt)
    ensures p.status.Dead? ==> r == p
    ensures p.status.Suspended? && p.events == [] ==> r.status.Suspended?
    ensures Ready(p, dt) && !r.status.Running? ==> r.status.Normal?
  {
  }

  lemma AliveCharged(k: Kernel)
    requires Schedulable(k, true) && k.enabled && k.canUpdate
    ensures TimesCharged(k.procs[ALIVE], SchedulerUpdate(k, true).procs[ALIVE], k.updates * 10 + 10)
  {
    var t := Ticked(k);
    assert t.procs[ALIVE] == TickProcess(k.procs[ALIVE], ALIVE, k.updates * 10 + 10);
    TickedShape(k);
    var h := LastRunning(k.procs);
    if h.Some? {
      LiveCountPositive(k.procs, h.value);
      TickIsCheck(k, h.value, LiveCount(k.procs));
      QuantumRuns(t, h.value, LiveCount(k.procs));
      assert SchedulerUpdate(k, true).procs[ALIVE] == t.procs[ALIVE];
    } else {
      AliveIdle(t);
      assert SchedulerUpdate(k, true) == SwitchFromIdle(t);
    }
  }

  lemma AliveIdle(k: Kernel)
    requires AliveParked(k.procs)
    ensures var p, r := k.procs[ALIVE], SwitchFromIdle(k).procs[ALIVE];
            && r.fixed == p.fixed && r.runningTime == p.runningTime && r.suspendedTime == p.suspendedTime
            && r.currentEvent == p.currentEvent && r.events == p.events
  {
  }
}
