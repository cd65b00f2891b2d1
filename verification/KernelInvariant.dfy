/** What every handler keeps, hence what holds in every reachable state of the kernel. */
module KernelInvariant {
  import opened Words
  import opened Timers
  import opened Processes
  import opened Kernel

  // ---------------------------------------------------------------- the invariant

  /** Slot 0 is ALIVE: parked, never core, without events. */
  ghost predicate AliveParked(ps: seq<Process>) {
    && |ps| > 0
    && ps[ALIVE].fixed.uid == ALIVE && ps[ALIVE].fixed.user == USER_ALIVE
    && ps[ALIVE].status.Suspended? && ps[ALIVE].started
    && !ps[ALIVE].fixed.core && ps[ALIVE].events == []
  }

  ghost predicate OneRunning(ps: seq<Process>) {
    forall i, j :: 0 <= i < |ps| && 0 <= j < |ps| && ps[i].status.Running? && ps[j].status.Running? ==> i == j
  }

  ghost predicate NoneRunning(ps: seq<Process>) {
    forall i :: 0 <= i < |ps| ==> !ps[i].status.Running?
  }

  ghost predicate UidsValid(ps: seq<Process>, lastUid: nat) {
    && lastUid < 0x8000_0000
    && (forall i :: 1 <= i < |ps| ==> 0 < ps[i].fixed.uid <= lastUid)
    && (forall i, j :: 0 <= i < |ps| && 0 <= j < |ps| && ps[i].fixed.uid == ps[j].fixed.uid ==> i == j)
    && (forall i :: 0 <= i < |ps| ==> ps[i].fixed.priority == 0)
  }

  /** Whoever runs or waits for an event has been started. */
  predicate HasRun(p: Process) {
    p.status.Running? || p.status.Suspended? ==> p.started
  }

  ghost predicate AllHaveRun(ps: seq<Process>) {
    forall i :: 0 <= i < |ps| ==> HasRun(ps[i])
  }

  /** Every unfinished timer belongs to a live process. */
  ghost predicate OwnersLive(ps: seq<Process>, slots: seq<Timer>) {
    forall j :: UnfinishedAt(slots, j) ==> slots[j].uid != ALIVE && FindUid(ps, slots[j].uid).Some?
  }

  ghost predicate LiveAt(ps: seq<Process>, i: int) {
    0 <= i < |ps| && IsLive(ps[i])
  }

  /** The loaded page directory is a live process's, and the running one's if there is one. */
  ghost predicate LoadedLive(ps: seq<Process>, loaded: nat) {
    && (exists c :: LiveAt(ps, c) && ps[c].fixed.pd == loaded)
    && (forall i :: 0 <= i < |ps| && ps[i].status.Running? ==> ps[i].fixed.pd == loaded)
  }

  ghost predicate Inv(k: Kernel) {
    && AliveParked(k.procs)
    && OneRunning(k.procs)
    && UidsValid(k.procs, k.lastUid)
    && AllHaveRun(k.procs)
    && OwnersLive(k.procs, k.timers.slots)
    && LoadedLive(k.procs, k.loaded)
    && (!k.enabled ==> NoneRunning(k.procs))
  }

  // ---------------------------------------------------------------- identity

  /** q is the same process as p: only scheduling and event fields differ, and it lives on. */
  ghost predicate Same(p: Process, q: Process) {
    && q.fixed == p.fixed
    && (IsLive(p) <==> IsLive(q))
    && (HasRun(p) ==> HasRun(q))
  }

  ghost predicate AllSame(ps: seq<Process>, qs: seq<Process>) {
    |ps| == |qs| && forall i :: 0 <= i < |ps| ==> Same(ps[i], qs[i])
  }

  lemma LiveFound(ps: seq<Process>, i: nat)
    requires LiveAt(ps, i)
    ensures FindUid(ps, ps[i].fixed.uid).Some?
  {
    var P := (p: Process) => IsLive(p) && p.fixed.uid == ps[i].fixed.uid;
    assert P(ps[i]);
    assert First(ps, P).Some?;
  }

  lemma SameLookup(ps: seq<Process>, qs: seq<Process>, uid: nat)
    requires AllSame(ps, qs)
    ensures FindUid(ps, uid) == FindUid(qs, uid)
  {
    var P := (p: Process) => IsLive(p) && p.fixed.uid == uid;
    assert forall i :: 0 <= i < |ps| ==> Same(ps[i], qs[i]) && P(ps[i]) == P(qs[i]);
    match First(ps, P) {
      case Some(i) => FirstIs(qs, P, i);
      case None => assert First(qs, P).None?;
    }
  }

  lemma SameKeeps(ps: seq<Process>, qs: seq<Process>, lastUid: nat, slots: seq<Timer>)
    requires AllSame(ps, qs)
    ensures UidsValid(ps, lastUid) ==> UidsValid(qs, lastUid)
    ensures AllHaveRun(ps) ==> AllHaveRun(qs)
    ensures OwnersLive(ps, slots) ==> OwnersLive(qs, slots)
  {
    assert forall i :: 0 <= i < |ps| ==> Same(ps[i], qs[i]);
    forall j | UnfinishedAt(slots, j) ensures FindUid(ps, slots[j].uid) == FindUid(qs, slots[j].uid) {
      SameLookup(ps, qs, slots[j].uid);
    }
  }

  lemma AllSameTrans(ps: seq<Process>, qs: seq<Process>, rs: seq<Process>)
    requires AllSame(ps, qs) && AllSame(qs, rs)
    ensures AllSame(ps, rs)
  {
    forall i | 0 <= i < |ps| ensures Same(ps[i], rs[i]) {
      assert Same(ps[i], qs[i]) && Same(qs[i], rs[i]);
    }
  }

  lemma SwitchSame(k: Kernel, current: Option<nat>, n: nat)
    requires n < |k.procs| && IsLive(k.procs[n])
    requires current.Some? ==> current.value < |k.procs| && current.value != n && IsLive(k.procs[current.value])
    ensures var r := Switch(k, current, n);
            && AllSame(k.procs, r.procs)
            && r == k.(procs := r.procs, cpu := r.cpu, loaded := r.loaded)
  {
  }

  // ---------------------------------------------------------------- scheduler_update

  /** Preconditions of an update that is not stopped by its guards. */
  ghost predicate Schedulable(k: Kernel, fromTimer: bool) {
    && AliveParked(k.procs)
    && OneRunning(k.procs)
    && (!fromTimer ==> NoneRunning(k.procs))
  }

  /** The table the scan looks at. */
  function Scanned(k: Kernel, fromTimer: bool): seq<Process> {
    if fromTimer then TickAll(k.procs, k.updates * 10 + 10) else k.procs
  }

  /** Whether the update gives the processor away: nobody had it, or its holder is over quantum. */
  predicate GivesAway(k: Kernel, fromTimer: bool) {
    var running := if fromTimer then LastRunning(k.procs) else None;
    running.None? || (LiveCount(k.procs) > 0 && OverQuantum(Scanned(k, fromTimer)[running.value], LiveCount(k.procs)))
  }

  /** The process an update leaves running. */
  function Chosen(k: Kernel, fromTimer: bool): nat {
    var running := if fromTimer then LastRunning(k.procs) else None;
    if GivesAway(k, fromTimer) && Pick(Scanned(k, fromTimer)).Some? then Pick(Scanned(k, fromTimer)).value
    else if running.Some? then running.value
    else ALIVE
  }

  lemma TickedShape(k: Kernel)
    requires AliveParked(k.procs)
    ensures var t := Ticked(k);
            && AllSame(k.procs, t.procs)
            && AliveParked(t.procs)
            && t.procs[ALIVE] == k.procs[ALIVE].(suspendedTime := t.procs[ALIVE].suspendedTime)
            && (forall i :: 0 <= i < |t.procs| ==> (t.procs[i].status.Running? <==> k.procs[i].status.Running?))
  {
  }

  lemma IdleRuns(k: Kernel)
    requires AliveParked(k.procs) && NoneRunning(k.procs)
    ensures var r := SwitchFromIdle(k);
            var c := if Pick(k.procs).Some? then Pick(k.procs).value else ALIVE;
            && c < |r.procs| == |k.procs|
            && (c == ALIVE <==> Pick(k.procs).None?)
            && (forall i :: 0 <= i < |r.procs| ==> (r.procs[i].status.Running? <==> i == c))
            && (c != ALIVE ==> r.procs[ALIVE] == k.procs[ALIVE])
            && r.procs[ALIVE].events == []
            && r.loaded == r.procs[c].fixed.pd && r.cpu == r.procs[c].registers
  {
  }

  lemma QuantumRuns(k: Kernel, h: nat, count: nat)
    requires AliveParked(k.procs) && OneRunning(k.procs) && h < |k.procs| && k.procs[h].status.Running? && count > 0
    ensures var r := CheckQuantum(k, h, count);
            var gives := OverQuantum(k.procs[h], count) && Pick(k.procs).Some?;
            var c := if gives then Pick(k.procs).value else h;
            && c != ALIVE && c < |r.procs| == |k.procs|
            && (forall i :: 0 <= i < |r.procs| ==> (r.procs[i].status.Running? <==> i == c))
            && r.procs[ALIVE] == k.procs[ALIVE]
            && (c != h ==> r.loaded == r.procs[c].fixed.pd && r.cpu == r.procs[c].registers)
            && (c == h ==> r == k)
            && (gives ==> c != h)
  {
  }

  /** c is the only process an update of k leaves running in r, and what it runs with. */
  ghost predicate LeavesRunning(k: Kernel, fromTimer: bool, r: Kernel, c: nat) {
    && AliveParked(k.procs) && c < |r.procs| == |k.procs|
    && (forall i :: 0 <= i < |r.procs| ==> (r.procs[i].status.Running? <==> i == c))
    && (c == ALIVE ==> Pick(Scanned(k, fromTimer)).None? && NoneRunning(k.procs))
    && r.procs[ALIVE].events == []
    && (c != ALIVE ==> r.procs[ALIVE] == k.procs[ALIVE].(suspendedTime := r.procs[ALIVE].suspendedTime))
    && (k.procs[c].status.Running? || (r.loaded == r.procs[c].fixed.pd && r.cpu == r.procs[c].registers))
    && (k.procs[c].status.Running? ==> r.loaded == k.loaded && r.cpu == k.cpu)
  }

  lemma TickLeavesRunning(k: Kernel)
    requires Schedulable(k, true)
    ensures LeavesRunning(k, true, TickSchedule(k), Chosen(k, true))
  {
    if LastRunning(k.procs).Some? {
      var h, n := LastRunning(k.procs).value, LiveCount(k.procs);
      LiveCountPositive(k.procs, h);
      TickIsCheck(k, h, n);
      ChosenOfHolder(k, h, n);
      HolderLeavesRunning(k, Ticked(k), h, n, Chosen(k, true));
    } else {
      assert TickSchedule(k) == SwitchFromIdle(Ticked(k)) && Scanned(k, true) == Ticked(k).procs;
      IdleLeavesRunning(k, Ticked(k), Chosen(k, true));
    }
  }

  lemma IdleLeavesRunning(k: Kernel, t: Kernel, c: nat)
    requires Schedulable(k, true) && NoneRunning(k.procs) && t == Ticked(k)
    requires c == if Pick(t.procs).Some? then Pick(t.procs).value else ALIVE
    ensures |t.procs| > 0 && LeavesRunning(k, true, SwitchFromIdle(t), c)
  {
    TickedShape(k);
    IdleRuns(t);
    assert Scanned(k, true) == t.procs;
  }

  lemma TickIsCheck(k: Kernel, h: nat, n: nat)
    requires LastRunning(k.procs) == Some(h) && n == LiveCount(k.procs) > 0
    ensures h < |Ticked(k).procs| && Ticked(k).procs[h].status.Running?
    ensures TickSchedule(k) == CheckQuantum(Ticked(k), h, n)
  {
  }

  lemma ChosenOfHolder(k: Kernel, h: nat, n: nat)
    requires LastRunning(k.procs) == Some(h) && n == LiveCount(k.procs) > 0
    ensures var ps := Ticked(k).procs;
            && h < |ps|
            && Chosen(k, true) == if OverQuantum(ps[h], n) && Pick(ps).Some? then Pick(ps).value else h
  {
    assert Scanned(k, true) == Ticked(k).procs;
  }

  lemma HolderLeavesRunning(k: Kernel, t: Kernel, h: nat, n: nat, c: nat)
    requires Schedulable(k, true) && t == Ticked(k) && h < |k.procs| && k.procs[h].status.Running? && n > 0
    requires c == if OverQuantum(t.procs[h], n) && Pick(t.procs).Some? then Pick(t.procs).value else h
    ensures t.procs[h].status.Running? && LeavesRunning(k, true, CheckQuantum(t, h, n), c)
  {
    TickedShape(k);
    QuantumRuns(t, h, n);
  }

  /**
   * After a completed update exactly one process is RUNNING. It is the scan's pick when the
   * processor is given away and the scan finds one, the old holder when it keeps the processor,
   * and ALIVE only when nothing was running and nothing qualifies; its page directory is loaded.
   */
  lemma UpdateLeavesOneRunning(k: Kernel, fromTimer: bool)
    requires Schedulable(k, fromTimer) && k.enabled && k.canUpdate
    ensures LeavesRunning(k, fromTimer, SchedulerUpdate(k, fromTimer), Chosen(k, fromTimer))
  {
    if fromTimer {
      TickLeavesRunning(k);
    } else {
      IdleRuns(k);
    }
  }

  lemma IdleSame(k: Kernel)
    requires AliveParked(k.procs)
    ensures var r := SwitchFromIdle(k);
            && AllSame(k.procs, r.procs)
            && r == k.(procs := r.procs, cpu := r.cpu, loaded := r.loaded)
  {
    match Pick(k.procs)
    case Some(n) => SwitchSame(k, None, n);
    case None =>
      assert SwitchFromIdle(k).procs == k.procs[ALIVE := Entered(k.procs[ALIVE].(started := false))];
  }

  lemma CheckSame(k: Kernel, h: nat, count: nat)
    requires h < |k.procs| && k.procs[h].status.Running? && count > 0
    ensures var r := CheckQuantum(k, h, count);
            && AllSame(k.procs, r.procs)
            && r == k.(procs := r.procs, cpu := r.cpu, loaded := r.loaded)
  {
    if Pick(k.procs).Some? {
      SwitchSame(k, Some(h), Pick(k.procs).value);
    }
  }

  lemma UpdateSame(k: Kernel, fromTimer: bool)
    requires Schedulable(k, fromTimer)
    ensures var r := SchedulerUpdate(k, fromTimer);
            && AllSame(k.procs, r.procs)
            && r == k.(procs := r.procs, cpu := r.cpu, loaded := r.loaded, updates := r.updates)
            && (!k.enabled || !k.canUpdate ==> r == k.(updates := r.updates))
            && (k.enabled && k.canUpdate ==> r.updates == if fromTimer then 0 else k.updates)
  {
    if k.enabled && k.canUpdate {
      if !fromTimer {
        IdleSame(k);
      } else {
        var t := Ticked(k);
        TickedShape(k);
        if LastRunning(k.procs).None? {
          IdleSame(t);
        } else {
          LiveCountPositive(k.procs, LastRunning(k.procs).value);
          CheckSame(t, LastRunning(k.procs).value, LiveCount(k.procs));
        }
        AllSameTrans(k.procs, t.procs, TickSchedule(k).procs);
      }
    }
  }

  /** One process running with its directory loaded, everybody else as before: parking ALIVE gives Inv again. */
  lemma SettledInv(k: Kernel, r: Kernel, c: nat)
    requires Inv(k) && AllSame(k.procs, r.procs) && c < |r.procs|
    requires r == k.(procs := r.procs, cpu := r.cpu, loaded := r.loaded, updates := r.updates)
    requires forall i :: 0 <= i < |r.procs| ==> (r.procs[i].status.Running? <==> i == c)
    requires r.loaded == r.procs[c].fixed.pd && k.enabled
    requires c != ALIVE ==> r.procs[ALIVE] == k.procs[ALIVE].(suspendedTime := r.procs[ALIVE].suspendedTime)
    requires r.procs[ALIVE].events == []
    ensures Inv(Park(r))
  {
    var s := Park(r);
    assert Same(k.procs[ALIVE], r.procs[ALIVE]);
    assert AllSame(r.procs, s.procs);
    AllSameTrans(k.procs, r.procs, s.procs);
    SameKeeps(k.procs, s.procs, k.lastUid, k.timers.slots);
    assert LiveAt(s.procs, c) && s.procs[c].fixed.pd == r.procs[c].fixed.pd;
  }

  lemma UpdateSkipped(k: Kernel, fromTimer: bool)
    requires Inv(k) && (!k.enabled || !k.canUpdate)
    ensures var r := SchedulerUpdate(k, fromTimer);
            r == k.(updates := r.updates) && Park(r) == r && Inv(r)
  {
  }

  /** An update followed by ALIVE parking restores the invariant. */
  lemma UpdateKeepsInv(k: Kernel, fromTimer: bool)
    requires Inv(k) && (!fromTimer ==> NoneRunning(k.procs))
    ensures Inv(Park(SchedulerUpdate(k, fromTimer)))
  {
    if k.enabled && k.canUpdate {
      UpdateSame(k, fromTimer);
      UpdateLeavesOneRunning(k, fromTimer);
      var c := Chosen(k, fromTimer);
      assert Same(k.procs[c], SchedulerUpdate(k, fromTimer).procs[c]);
      SettledInv(k, SchedulerUpdate(k, fromTimer), c);
    } else {
      UpdateSkipped(k, fromTimer);
    }
  }

  // ---------------------------------------------------------------- handlers

  lemma SpawnKeepsInv(k: Kernel, op: Op)
    requires Inv(k) && op.Spawn? && Safe(k, op)
    ensures Inv(Prepare(k, op))
  {
    var s := Prepare(k, op);
    var n := match First(k.procs, IsDead) case Some(i) => i case None => |k.procs|;
    assert n != ALIVE && (n < |k.procs| ==> IsDead(k.procs[n]));
    assert s.procs[n].fixed.uid == k.lastUid + 1 == s.lastUid && s.procs[n].status.Normal?
           && s.procs[n].fixed.priority == 0;
    SlotTakenKeeps(k.procs, s.procs, n, k.lastUid);
    LinksKept(k.procs, s.procs, k.loaded, k.timers.slots);
    assert s.timers == k.timers && s.loaded == k.loaded;
  }

  /** A runnable process with the next uid put into slot n, dead or new, leaves the table in order. */
  lemma SlotTakenKeeps(ps: seq<Process>, qs: seq<Process>, n: nat, lastUid: nat)
    requires AliveParked(ps) && OneRunning(ps) && UidsValid(ps, lastUid) && AllHaveRun(ps)
    requires n != ALIVE && |ps| <= |qs| <= |ps| + 1 && n < |qs| && (|qs| == |ps| + 1 ==> n == |ps|)
    requires forall i :: 0 <= i < |qs| && i != n ==> qs[i] == ps[i]
    requires qs[n].fixed.uid == lastUid + 1 < 0x8000_0000 && qs[n].status.Normal? && qs[n].fixed.priority == 0
    ensures AliveParked(qs) && OneRunning(qs) && UidsValid(qs, lastUid + 1) && AllHaveRun(qs)
    ensures NoneRunning(ps) ==> NoneRunning(qs)
  {
  }

  /** As long as live entries stay where they are, timers keep their owners and the directory its process. */
  lemma LinksKept(ps: seq<Process>, qs: seq<Process>, loaded: nat, slots: seq<Timer>)
    requires LoadedLive(ps, loaded) && OwnersLive(ps, slots)
    requires |ps| <= |qs| && forall i :: 0 <= i < |ps| && IsLive(ps[i]) ==> qs[i] == ps[i]
    requires forall i :: 0 <= i < |qs| && qs[i].status.Running? ==> i < |ps| && IsLive(ps[i])
    ensures LoadedLive(qs, loaded) && OwnersLive(qs, slots)
  {
    var c :| LiveAt(ps, c) && ps[c].fixed.pd == loaded;
    assert LiveAt(qs, c) && qs[c].fixed.pd == loaded;
    forall j | UnfinishedAt(slots, j)
      ensures slots[j].uid != ALIVE && FindUid(qs, slots[j].uid).Some?
    {
      LiveFound(qs, FindUid(ps, slots[j].uid).value);
    }
  }

  lemma DeliverKeepsInv(k: Kernel, r: nat)
    requires Inv(k) && r < |k.procs| && k.procs[r].status.Running? && k.procs[r].events != []
    ensures Inv(Deliver(k, r))
  {
    var s := Deliver(k, r);
    assert s.procs[r].status.Running?;
    assert AllSame(k.procs, s.procs);
    SameKeeps(k.procs, s.procs, k.lastUid, k.timers.slots);
    assert LiveAt(s.procs, r);
  }

  lemma SuspendKeepsInv(k: Kernel, r: nat)
    requires Inv(k) && r < |k.procs| && k.procs[r].status.Running?
    ensures Inv(Suspend(k, r)) && NoneRunning(Suspend(k, r).procs)
  {
    var s := Suspend(k, r);
    assert AllSame(k.procs, s.procs);
    SameKeeps(k.procs, s.procs, k.lastUid, k.timers.slots);
    assert LiveAt(s.procs, r);
  }

  lemma BuryKeepsOwners(k: Kernel, i: nat)
    requires Inv(k) && i < |k.procs| && IsLive(k.procs[i])
    ensures OwnersLive(Bury(k, i).procs, Bury(k, i).timers.slots)
  {
    var s := Bury(k, i);
    forall j | UnfinishedAt(s.timers.slots, j)
      ensures s.timers.slots[j].uid != ALIVE && FindUid(s.procs, s.timers.slots[j].uid).Some?
    {
      var t := k.timers.slots[j];
      assert UnfinishedAt(k.timers.slots, j) && t.uid != k.procs[i].fixed.uid;
      LiveFound(s.procs, FindUid(k.procs, t.uid).value);
    }
  }

  /** Burying process i leaves its timers finished and, if it was running, nothing running. */
  lemma BuryKeepsInv(k: Kernel, r: nat, i: nat)
    requires Inv(k) && r < |k.procs| && k.procs[r].status.Running? && i < |k.procs| && i != ALIVE && IsLive(k.procs[i])
    ensures Inv(Bury(k, i)) && (i == r ==> NoneRunning(Bury(k, i).procs))
  {
    BuryKeepsOwners(k, i);
    BuryKeepsRunner(k, r, i);
  }

  lemma BuryKeepsRunner(k: Kernel, r: nat, i: nat)
    requires Inv(k) && r < |k.procs| && k.procs[r].status.Running? && i < |k.procs| && i != ALIVE && IsLive(k.procs[i])
    ensures OneRunning(Bury(k, i).procs) && LoadedLive(Bury(k, i).procs, Bury(k, i).loaded)
    ensures i == r ==> NoneRunning(Bury(k, i).procs)
  {
    var s := Bury(k, i);
    assert LiveAt(s.procs, ALIVE);
    if i != r {
      assert LiveAt(s.procs, r) && s.procs[r] == k.procs[r];
    }
  }

  /** Whatever leaves identities and statuses alone keeps who runs and whose directory is loaded. */
  lemma StatusKept(ps: seq<Process>, qs: seq<Process>, loaded: nat)
    requires AllSame(ps, qs) && OneRunning(ps) && LoadedLive(ps, loaded)
    requires forall i :: 0 <= i < |ps| ==> qs[i].status == ps[i].status
    ensures OneRunning(qs) && LoadedLive(qs, loaded) && (NoneRunning(ps) ==> NoneRunning(qs))
  {
    var c :| LiveAt(ps, c) && ps[c].fixed.pd == loaded;
    assert LiveAt(qs, c) && qs[c].fixed.pd == loaded;
  }

  lemma PushKeepsInv(k: Kernel, i: nat, e: Event)
    requires Inv(k) && i < |k.procs| && i != ALIVE
    ensures Inv(k.(procs := PushEvent(k.procs, i, e)))
  {
    var ps := PushEvent(k.procs, i, e);
    assert AllSame(k.procs, ps);
    SameKeeps(k.procs, ps, k.lastUid, k.timers.slots);
    StatusKept(k.procs, ps, k.loaded);
  }

  lemma {:induction false} PushTimersKeepInv(k: Kernel, due: seq<Timer>)
    requires Inv(k) && forall t :: t in due ==> t.uid != ALIVE
    ensures Inv(k.(procs := PushTimers(k.procs, due)))
  {
    if due != [] {
      var front := due[..|due| - 1];
      var t := due[|due| - 1];
      PushTimersKeepInv(k, front);
      var s := k.(procs := PushTimers(k.procs, front));
      var o := FindUid(s.procs, t.uid);
      if o.Some? {
        PushKeepsInv(s, o.value, TimerEvent(t));
      }
    }
  }

  lemma {:induction false} DueUnfinished(slots: seq<Timer>)
    ensures forall t :: t in DueTimers(slots) ==> exists j :: UnfinishedAt(slots, j) && slots[j] == t
  {
    if slots != [] {
      var n := |slots| - 1;
      DueUnfinished(slots[..n]);
      forall t | t in DueTimers(slots)
        ensures exists j :: UnfinishedAt(slots, j) && slots[j] == t
      {
        if t in DueTimers(slots[..n]) {
          var j :| UnfinishedAt(slots[..n], j) && slots[..n][j] == t;
          assert UnfinishedAt(slots, j);
        } else {
          assert UnfinishedAt(slots, n);
        }
      }
    }
  }

  lemma FiredInv(k: Kernel)
    requires Inv(k)
    ensures Inv(Fired(k))
  {
    DueUnfinished(k.timers.slots);
    PushTimersKeepInv(k, DueTimers(k.timers.slots));
    var f := Fired(k);
    forall j | UnfinishedAt(f.timers.slots, j)
      ensures f.timers.slots[j].uid != ALIVE && FindUid(f.procs, f.timers.slots[j].uid).Some?
    {
      assert UnfinishedAt(k.timers.slots, j);
    }
  }

  lemma StartKeepsOwners(ps: seq<Process>, tt: TimerTable, uid: nat, millis: u32)
    requires OwnersLive(ps, tt.slots) && uid != ALIVE && FindUid(ps, uid).Some?
    ensures OwnersLive(ps, StartTimer(tt, uid, millis).slots)
  {
    forall j | UnfinishedAt(StartTimer(tt, uid, millis).slots, j)
      ensures var t := StartTimer(tt, uid, millis).slots[j]; t.uid != ALIVE && FindUid(ps, t.uid).Some?
    {
      UnfinishedOrigin(tt, Start(uid, millis), j);
    }
  }

  lemma TimerStartKeepsInv(k: Kernel, millis: u32)
    requires Inv(k) && Safe(k, TimerStart(millis))
    ensures Inv(Prepare(k, TimerStart(millis)))
  {
    var r := Current(k).value;
    LiveFound(k.procs, r);
    StartKeepsOwners(k.procs, k.timers, k.procs[r].fixed.uid, millis);
  }

  lemma TimerCancelKeepsInv(k: Kernel, id: u32)
    requires Inv(k) && Safe(k, TimerCancel(id))
    ensures Inv(Prepare(k, TimerCancel(id)))
  {
    var s := Prepare(k, TimerCancel(id));
    forall j | UnfinishedAt(s.timers.slots, j)
      ensures s.timers.slots[j].uid != ALIVE && FindUid(s.procs, s.timers.slots[j].uid).Some?
    {
      assert UnfinishedAt(k.timers.slots, j);
    }
  }

  lemma PullKeepsInv(k: Kernel)
    requires Inv(k) && Safe(k, Pull)
    ensures Inv(Prepare(k, Pull)) && (Reschedules(k, Pull) ==> NoneRunning(Prepare(k, Pull).procs))
  {
    var r := Current(k).value;
    if k.procs[r].events != [] {
      DeliverKeepsInv(k, r);
    } else {
      SuspendKeepsInv(k, r);
    }
  }

  lemma KillKeepsInv(k: Kernel, victim: u32)
    requires Inv(k) && Safe(k, Kill(victim))
    ensures Inv(Prepare(k, Kill(victim)))
    ensures Reschedules(k, Kill(victim)) ==> NoneRunning(Prepare(k, Kill(victim)).procs)
  {
    var v := KillTarget(k, Current(k).value, victim);
    if v.Some? {
      BuryKeepsInv(k, Current(k).value, v.value);
    }
  }

  /** What a handler does before it schedules keeps the invariant, and a syscall that schedules has nobody running. */
  lemma PrepareKeepsInv(k: Kernel, op: Op)
    requires Inv(k) && Safe(k, op)
    ensures Inv(Prepare(k, op))
    ensures Reschedules(k, op) && !op.TimerIrq? ==> NoneRunning(Prepare(k, op).procs)
  {
    match op {
      case StartAlive => assert LiveAt(k.procs, ALIVE);
      case Spawn(_, _, _, _, _, _) => SpawnKeepsInv(k, op);
      case Pull => PullKeepsInv(k);
      case Queue(event, target) =>
        var t := QueueTarget(k, Current(k).value, target);
        if t.Some? {
          PushKeepsInv(k, t.value, event);
        }
      case Kill(victim) => KillKeepsInv(k, victim);
      case Key(event) => PushKeepsInv(k, First(k.procs, IsLiveCore).value, event);
      case TimerIrq => FiredInv(k);
      case TimerStart(millis) => TimerStartKeepsInv(k, millis);
      case TimerCancel(id) => TimerCancelKeepsInv(k, id);
      case User(_) =>
    }
  }

  lemma StepKeepsInv(k: Kernel, op: Op)
    requires Inv(k) && Safe(k, op)
    ensures Inv(Step(k, op))
  {
    PrepareKeepsInv(k, op);
    if Reschedules(k, op) {
      UpdateKeepsInv(Prepare(k, op), op.TimerIrq?);
    }
  }

  // ---------------------------------------------------------------- every reachable state

  lemma {:induction false} RunKeepsInv(k: Kernel, ops: seq<Op>)
    requires Inv(k) && CanRun(k, ops)
    ensures Inv(Run(k, ops))
    decreases |ops|
  {
    if ops != [] {
      StepKeepsInv(k, ops[0]);
      RunKeepsInv(Step(k, ops[0]), ops[1..]);
    }
  }

  lemma OwnersDeliverable(k: Kernel)
    requires Inv(k)
    ensures Safe(k, TimerIrq)
  {
    DueUnfinished(k.timers.slots);
  }

  lemma BootInv(pd: nat, stack: u32, main: u32, regs: Registers, left: Process)
    ensures Inv(Boot(pd, stack, main, regs, left))
  {
    assert LiveAt(Boot(pd, stack, main, regs, left).procs, ALIVE);
  }

  /**
   * From boot, whatever run of interrupts and syscalls completes: at most one process is running,
   * ALIVE is parked, uids are distinct, every unfinished timer has a live owner, the loaded page
   * directory is a live process's, and the panic of the timer interrupt cannot happen next.
   */
  lemma EveryReachableState(pd: nat, stack: u32, main: u32, regs: Registers, left: Process, ops: seq<Op>)
    requires CanRun(Boot(pd, stack, main, regs, left), ops)
    ensures Inv(Run(Boot(pd, stack, main, regs, left), ops))
    ensures Safe(Run(Boot(pd, stack, main, regs, left), ops), TimerIrq)
  {
    var k := Boot(pd, stack, main, regs, left);
    BootInv(pd, stack, main, regs, left);
    RunKeepsInv(k, ops);
    OwnersDeliverable(Run(k, ops));
  }

  // ---------------------------------------------------------------- where the code freezes

  /** Starting a process leaves the scheduler on exactly when no dead slot was there to reuse. */
  lemma StartFreezesIff(k: Kernel, p: Process)
    ensures StartProcess(k, p).canUpdate <==> forall i :: 0 <= i < |k.procs| ==> IsLive(k.procs[i])
  {
    assert First(k.procs, IsDead).None? <==> forall i :: 0 <= i < |k.procs| ==> IsLive(k.procs[i]);
  }

  /** The k' of a frozen step: same table size, flag and directory, and nobody newly running. */
  ghost predicate StillFrozen(k: Kernel, r: Kernel) {
    && r.enabled && !r.canUpdate && |r.procs| == |k.procs| && r.loaded == k.loaded
    && (forall i :: 0 <= i < |k.procs| && r.procs[i].status.Running? ==> k.procs[i].status.Running?)
  }

  lemma FrozenPrepare(k: Kernel, op: Op)
    requires Inv(k) && k.enabled && !k.canUpdate && Safe(k, op) && !op.Kill? && !op.Spawn?
    ensures StillFrozen(k, Prepare(k, op)) && Prepare(k, op).updates == k.updates
  {
    match op {
      case Pull =>
      case TimerIrq => PushTimersKeepLookups(k.procs, DueTimers(k.timers.slots), 0);
      case Queue(_, _) =>
      case Key(_) =>
      case TimerStart(_) =>
      case TimerCancel(_) =>
      case StartAlive =>
      case User(_) =>
    }
  }

  lemma FrozenStep(k: Kernel, op: Op)
    requires Inv(k) && k.enabled && !k.canUpdate && Safe(k, op) && !op.Kill? && !op.Spawn?
    ensures StillFrozen(k, Step(k, op)) && Step(k, op).updates == k.updates + (if op.TimerIrq? then 1 else 0)
  {
    FrozenPrepare(k, op);
    StepKeepsInv(k, op);
    PrepareKeepsInv(k, op);
  }

  /**
   * Once frozen, and until the next kill or start, no process is ever switched to, whatever
   * else happens: whoever runs at the end ran at the beginning, and ticks are only counted.
   */
  lemma {:induction false} FrozenNeverSwitches(k: Kernel, ops: seq<Op>)
    requires Inv(k) && k.enabled && !k.canUpdate && CanRun(k, ops)
    requires forall i :: 0 <= i < |ops| ==> !ops[i].Kill? && !ops[i].Spawn?
    ensures var r := Run(k, ops);
            && !r.canUpdate && |r.procs| == |k.procs| && r.loaded == k.loaded
            && r.updates == k.updates + TickCount(ops)
            && (forall i :: 0 <= i < |k.procs| && r.procs[i].status.Running? ==> k.procs[i].status.Running?)
    decreases |ops|
  {
    if ops != [] {
      FrozenStep(k, ops[0]);
      StepKeepsInv(k, ops[0]);
      var rest := ops[1..];
      assert forall i :: 0 <= i < |rest| ==> rest[i] == ops[i + 1];
      FrozenNeverSwitches(Step(k, ops[0]), rest);
    }
  }

  /** The processes started in the run below. */
  function Plain(main: u32): Op {
    Spawn(main, 0, false, false, main as nat, 0)
  }

  /** One process more in a table without dead slots. */
  lemma StartAppends(k: Kernel, a: u32)
    requires |k.procs| > 0 && k.lastUid < 100 && forall i :: 0 <= i < |k.procs| ==> IsLive(k.procs[i])
    ensures Safe(k, Plain(a))
    ensures Step(k, Plain(a))
            == Park(StartProcess(k.(lastUid := k.lastUid + 1), Created(k.lastUid + 1, a, 0, false, false, a as nat, 0)))
    ensures !k.procs[ALIVE].status.Running?
            ==> var p := Created(k.lastUid + 1, a, 0, false, false, a as nat, 0).(status := Normal);
                Step(k, Plain(a)) == k.(procs := k.procs + [p], lastUid := k.lastUid + 1, canUpdate := true)
  {
    assert First(k.procs, IsDead).None?;
  }

  /** Scheduling switched on with two processes ready: the first of them runs. */
  lemma FirstRuns(k: Kernel)
    requires |k.procs| == 3 && AliveParked(k.procs) && IsFresh(k.procs[1]) && !k.enabled && k.canUpdate
    ensures var r := Step(k, StartAlive);
            && r.enabled && r.canUpdate && r.lastUid == k.lastUid && |r.procs| == 3
            && r.procs[0] == k.procs[0] && r.procs[1].status.Running? && r.procs[2] == k.procs[2]
  {
    PickIs(k.procs, 1);
  }

  /** The running one ends itself: its slot is dead and the other one runs. */
  lemma FirstEnds(k: Kernel)
    requires |k.procs| == 3 && AliveParked(k.procs) && k.procs[1].status.Running? && IsFresh(k.procs[2])
    requires k.enabled && k.canUpdate
    ensures Safe(k, Kill(0))
    ensures var r := Step(k, Kill(0));
            r.enabled && r.canUpdate && r.lastUid == k.lastUid && First(r.procs, IsDead) == Some(1)
  {
    FirstIs(k.procs, IsRunning, 1);
    var s := Bury(k, 1);
    assert Prepare(k, Kill(0)) == s;
    PickIs(s.procs, 2);
    var r := Step(k, Kill(0));
    assert r.procs[1] == s.procs[1] && r.procs[0] == s.procs[0];
    FirstIs(r.procs, IsDead, 1);
  }

  lemma RunFirst(k: Kernel, op: Op, rest: seq<Op>)
    requires Safe(k, op) && CanRun(Step(k, op), rest)
    ensures CanRun(k, [op] + rest) && Run(k, [op] + rest) == Run(Step(k, op), rest)
  {
    assert ([op] + rest)[1..] == rest;
  }

  lemma TwoStarted(k: Kernel, a: u32, b: u32)
    requires |k.procs| == 1 && AliveParked(k.procs) && k.lastUid == 0 && !k.enabled
    ensures Safe(k, Plain(a)) && Safe(Step(k, Plain(a)), Plain(b))
    ensures var r := Step(Step(k, Plain(a)), Plain(b));
            && |r.procs| == 3 && AliveParked(r.procs) && IsFresh(r.procs[1]) && IsFresh(r.procs[2])
            && !r.enabled && r.canUpdate && r.lastUid == 2
  {
    StartAppends(k, a);
    StartAppends(Step(k, Plain(a)), b);
  }

  /** From two ready processes: the first runs, and ends. */
  lemma OneEnded(k: Kernel)
    requires |k.procs| == 3 && AliveParked(k.procs) && IsFresh(k.procs[1]) && IsFresh(k.procs[2])
    requires !k.enabled && k.canUpdate
    ensures CanRun(k, [StartAlive, Kill(0)])
    ensures var r := Run(k, [StartAlive, Kill(0)]);
            r.enabled && r.canUpdate && r.lastUid == k.lastUid && First(r.procs, IsDead) == Some(1)
  {
    FirstRuns(k);
    var k3 := Step(k, StartAlive);
    FirstEnds(k3);
    RunFirst(k3, Kill(0), []);
    RunFirst(k, StartAlive, [Kill(0)]);
    assert [Kill(0)] + [] == [Kill(0)] && [StartAlive] + [Kill(0)] == [StartAlive, Kill(0)];
  }

  lemma FourInARow<T>(a: T, b: T, c: T, d: T)
    ensures [a] + [b, c, d] == [a, b, c, d] && [b] + [c, d] == [b, c, d]
  {
  }

  lemma DeadSlotReached(k: Kernel, a: u32, b: u32)
    requires |k.procs| == 1 && AliveParked(k.procs) && k.lastUid == 0 && !k.enabled
    ensures var ops := [Plain(a), Plain(b), StartAlive, Kill(0)];
            && CanRun(k, ops)
            && var r := Run(k, ops);
               r.enabled && r.canUpdate && r.lastUid == 2 && First(r.procs, IsDead) == Some(1)
  {
    TwoStarted(k, a, b);
    OneEnded(Step(Step(k, Plain(a)), Plain(b)));
    RunFirst(Step(k, Plain(a)), Plain(b), [StartAlive, Kill(0)]);
    FourInARow(Plain(a), Plain(b), StartAlive, Kill(0));
    RunFirst(k, Plain(a), [Plain(b), StartAlive, Kill(0)]);
  }

  /** Starting one more process then freezes the system: scheduling is on, `can_update` is not, and nothing lifts it. */
  lemma FreezeReached(pd: nat, stack: u32, main: u32, regs: Registers, left: Process, a: u32, b: u32, c: u32)
    ensures var k := Boot(pd, stack, main, regs, left);
            var ops := [Plain(a), Plain(b), StartAlive, Kill(0)];
            && CanRun(k, ops) && Safe(Run(k, ops), Plain(c))
            && var r := Step(Run(k, ops), Plain(c));
               r.enabled && !r.canUpdate
  {
    var k := Boot(pd, stack, main, regs, left);
    DeadSlotReached(k, a, b);
    StartFreezesIff(Run(k, [Plain(a), Plain(b), StartAlive, Kill(0)]), Created(3, c, 0, false, false, c as nat, 0));
  }
}
