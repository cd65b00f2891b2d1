/** Process table entries and the per-entry functions of TomatKernel/core/process/process.c. */
module Processes {
  import opened Words

  const ALIVE: nat := 0
  const USER_ALIVE: u32 := 0xFF
  const GDT_SEGMENT_CODE: u32 := 8
  const GDT_SEGMENT_DATA: u32 := 16
  const GDT_SEGMENT_USER_CODE: u32 := 24
  const GDT_SEGMENT_USER_DATA: u32 := 32
  const INITIAL_EFLAGS: u32 := 0x202

  datatype Status = Running | Normal | Suspended | Dead

  datatype EventKind =
    | EventAll | EventChar | EventKey | EventKeyUp | EventTimer | EventTerminate
    | EventMouseClick | EventMouseUp | EventMouseScroll | EventMouseDrag

  datatype Event = Event(kind: EventKind, d0: u32, d1: u32, d2: u32, d3: u32)

  /** What `eax` can hold: a number, or the address of a process's `current_event`. */
  datatype Word = Num(n: u32) | CurrentEventOf(slot: nat)

  /** The registers of an interrupt frame that switching never writes one by one. */
  datatype General = General(
    edi: u32, esi: u32, ebp: u32, esp: u32, ebx: u32, edx: u32, ecx: u32,
    intNo: u32, code: u32, eip: u32, eflags: u32, useresp: u32, ss: u32)

  datatype Registers = Registers(ds: u32, cs: u32, eax: Word, general: General)

  /** The fields of a process that nothing writes once it has been started. */
  datatype Fixed = Fixed(pd: nat, main: u32, stack: u32, user: u32, uid: nat, priority: u8, core: bool,
                         foreground: bool)

  datatype Process = Process(
    fixed: Fixed, status: Status, started: bool, registers: Registers, currentEvent: Event, events: seq<Event>,
    suspendedTime: u32, runningTime: u32)

  // ---------------------------------------------------------------- lookups

  predicate IsRunning(p: Process) {
    p.status.Running?
  }

  predicate IsLive(p: Process) {
    !p.status.Dead?
  }

  predicate IsDead(p: Process) {
    p.status.Dead?
  }

  predicate IsLiveCore(p: Process) {
    IsLive(p) && p.fixed.core
  }

  /** Runnable and never run. */
  predicate IsFresh(p: Process) {
    p.status.Normal? && !p.started
  }

  function FindUid(ps: seq<Process>, uid: nat): Option<nat> {
    First(ps, p => IsLive(p) && p.fixed.uid == uid)
  }

  function LiveCount(ps: seq<Process>): nat {
    if ps == [] then 0
    else LiveCount(ps[..|ps| - 1]) + (if IsLive(ps[|ps| - 1]) then 1 else 0)
  }

  /** Last RUNNING entry: the one the tick loop is left holding. */
  function LastRunning(ps: seq<Process>): (r: Option<nat>)
    ensures r.None? ==> forall j :: 0 <= j < |ps| ==> !ps[j].status.Running?
    ensures r.Some? ==> r.value < |ps| && ps[r.value].status.Running?
    ensures r.Some? ==> forall j :: r.value < j < |ps| ==> !ps[j].status.Running?
  {
    if ps == [] then None
    else
      var n := |ps| - 1;
      if ps[n].status.Running? then Some(n) else LastRunning(ps[..n])
  }

  // ---------------------------------------------------------------- selection

  /** `suspended_time * (priority + 1)` computed unsigned and read as an int. */
  function Score(p: Process): int {
    Signed(Wrap(p.suspendedTime * (p.fixed.priority + 1)))
  }

  /** First NORMAL entry whose score is positive and maximal. */
  function Best(ps: seq<Process>): (r: Option<nat>)
    ensures r.None? ==> forall j :: 0 <= j < |ps| && ps[j].status.Normal? ==> Score(ps[j]) <= 0
    ensures r.Some? ==> r.value < |ps| && ps[r.value].status.Normal? && Score(ps[r.value]) > 0
    ensures r.Some? ==> forall j :: 0 <= j < |ps| && ps[j].status.Normal? ==> Score(ps[j]) <= Score(ps[r.value])
    ensures r.Some? ==> forall j :: 0 <= j < r.value && ps[j].status.Normal? ==> Score(ps[j]) < Score(ps[r.value])
  {
    if ps == [] then None
    else
      var n := |ps| - 1;
      var b := Best(ps[..n]);
      if ps[n].status.Normal? && Score(ps[n]) > (if b.Some? then Score(ps[b.value]) else 0) then Some(n) else b
  }

  /** The scan of the scheduler: an unstarted process first, otherwise the best score. */
  function Pick(ps: seq<Process>): (r: Option<nat>)
    ensures r.None? <==> forall j :: 0 <= j < |ps| && ps[j].status.Normal? ==> ps[j].started && Score(ps[j]) <= 0
    ensures r.Some? ==> r.value < |ps| && ps[r.value].status.Normal?
    ensures r.Some? && !ps[r.value].started ==> forall j :: 0 <= j < r.value ==> !IsFresh(ps[j])
    ensures r.Some? && ps[r.value].started ==>
              && (forall j :: 0 <= j < |ps| ==> !IsFresh(ps[j]))
              && Score(ps[r.value]) > 0
              && (forall j :: 0 <= j < |ps| && ps[j].status.Normal? ==> Score(ps[j]) <= Score(ps[r.value]))
              && (forall j :: 0 <= j < r.value && ps[j].status.Normal? ==> Score(ps[j]) < Score(ps[r.value]))
  {
    var f := First(ps, IsFresh);
    if f.Some? then f else Best(ps)
  }

  // ---------------------------------------------------------------- entries

  /** `pull_event` into `current_event`. */
  function PullFront(p: Process): Process
    requires p.events != []
  {
    p.(currentEvent := p.events[0], events := p.events[1..])
  }

  /** Wake a process suspended inside `pull_event`: it finds its event in eax. */
  function Wake(p: Process, slot: nat): Process
    requires p.events != []
  {
    var q := PullFront(p);
    q.(registers := q.registers.(eax := CurrentEventOf(slot)), status := Normal)
  }

  /** Body of the tick loop for one entry. */
  function TickProcess(p: Process, slot: nat, passed: int): Process {
    var q := match p.status
             case Dead => p
             case Running => p.(runningTime := Wrap(p.runningTime + passed))
             case _ => p.(suspendedTime := Wrap(p.suspendedTime + passed));
    if q.status.Suspended? && q.events != [] then Wake(q, slot) else q
  }

  function TickAll(ps: seq<Process>, passed: int): (r: seq<Process>)
    ensures |r| == |ps|
    ensures forall i :: 0 <= i < |ps| ==> r[i] == TickProcess(ps[i], i, passed)
  {
    seq(|ps|, i requires 0 <= i < |ps| => TickProcess(ps[i], i, passed))
  }

  function ZeroGeneral(): General {
    General(0, 0, 0, 0, 0, 0, 0, 0, 0, 0, 0, 0, 0)
  }

  function ZeroRegisters(): Registers {
    Registers(0, 0, Num(0), ZeroGeneral())
  }

  function ZeroEvent(): Event {
    Event(EventAll, 0, 0, 0, 0)
  }

  /** Registers of a process about to run for the first time. */
  function FirstRegisters(p: Process): Registers {
    ZeroRegisters().(general := ZeroGeneral().(
      esp := p.fixed.stack, ebp := p.fixed.stack, useresp := p.fixed.stack, eip := p.fixed.main,
      eflags := INITIAL_EFLAGS))
  }

  /** The segment selectors every switch sets from the user of the process. */
  function WithSegments(r: Registers, user: u32): Registers {
    if user == USER_ALIVE then r.(ds := GDT_SEGMENT_DATA, cs := GDT_SEGMENT_CODE)
    else r.(ds := GDT_SEGMENT_USER_DATA, cs := GDT_SEGMENT_USER_CODE)
  }

  /** A process entry as `process_switch` leaves it when switching to it. */
  function Entered(p: Process): Process {
    var q := if p.started then p else p.(started := true, registers := FirstRegisters(p));
    q.(registers := WithSegments(q.registers, q.fixed.user), status := Running)
  }

  function PushEvent(ps: seq<Process>, i: nat, e: Event): seq<Process>
    requires i < |ps|
  {
    ps[i := ps[i].(events := ps[i].events + [e])]
  }

  predicate HasPermission(required: u32, has: u32) {
    required % 256 == 0 || has % 256 > required % 256 - 1
  }

  /** `process_create`: everything zero but the fields the caller names; `core` is the mark kernel_boot may add. */
  function Created(uid: nat, main: u32, user: u32, foreground: bool, core: bool, pd: nat, stack: u32): Process {
    Process(Fixed(pd, main, stack, user, uid, 0, core, foreground),
            Suspended, false, ZeroRegisters(), ZeroEvent(), [], 0, 0)
  }

  // ---------------------------------------------------------------- lemmas

  /** What Pick promises leaves one answer: any index meeting the description is the one picked. */
  lemma PickIs(ps: seq<Process>, i: nat)
    requires i < |ps| && ps[i].status.Normal?
    requires if ps[i].started
             then && (forall j :: 0 <= j < |ps| ==> !IsFresh(ps[j]))
                  && Score(ps[i]) > 0
                  && (forall j :: 0 <= j < |ps| && ps[j].status.Normal? ==> Score(ps[j]) <= Score(ps[i]))
                  && (forall j :: 0 <= j < i && ps[j].status.Normal? ==> Score(ps[j]) < Score(ps[i]))
             else forall j :: 0 <= j < i ==> !IsFresh(ps[j])
    ensures Pick(ps) == Some(i)
  {
    if !ps[i].started {
      FirstIs(ps, IsFresh, i);
    } else {
      var r := Pick(ps);
      assert r.Some?;
      assert !IsFresh(ps[r.value]);
    }
  }

  lemma {:induction false} LiveCountPositive(ps: seq<Process>, i: nat)
    requires i < |ps| && IsLive(ps[i])
    ensures LiveCount(ps) >= 1
  {
    if i < |ps| - 1 {
      LiveCountPositive(ps[..|ps| - 1], i);
    }
  }

  lemma {:induction false} LiveCountAgrees(ps: seq<Process>, qs: seq<Process>)
    requires |ps| == |qs|
    requires forall i :: 0 <= i < |ps| ==> (IsLive(ps[i]) <==> IsLive(qs[i]))
    ensures LiveCount(ps) == LiveCount(qs)
  {
    if ps != [] {
      LiveCountAgrees(ps[..|ps| - 1], qs[..|qs| - 1]);
    }
  }
}
