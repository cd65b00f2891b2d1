/** The countdown timers of TomatKernel/core/timer.c: a table whose finished slots are reused. */
module Timers {
  import opened Words

  datatype Timer = Timer(id: u32, uid: nat, left: u32, finished: bool)

  datatype TimerTable = TimerTable(slots: seq<Timer>, ids: u32)

  // ---------------------------------------------------------------- one operation

  /** The unsigned test of the tick handler: nothing left, or the subtraction wrapped. */
  predicate Due(t: Timer) {
    && !t.finished
    && (Wrap(t.left - 10) == 0 || Wrap(t.left - 10) > t.left)
  }

  function TickTimer(t: Timer): Timer {
    if t.finished then t
    else if Due(t) then t.(finished := true)
    else t.(left := Wrap(t.left - 10))
  }

  function TickSlots(slots: seq<Timer>): (r: seq<Timer>)
    ensures |r| == |slots|
    ensures forall j :: 0 <= j < |slots| ==> r[j] == TickTimer(slots[j])
  {
    seq(|slots|, j requires 0 <= j < |slots| => TickTimer(slots[j]))
  }

  /** The timers that fire at the next tick, in table order. */
  function DueTimers(slots: seq<Timer>): seq<Timer> {
    if slots == [] then []
    else
      var n := |slots| - 1;
      DueTimers(slots[..n]) + (if Due(slots[n]) then [slots[n]] else [])
  }

  predicate IsFinished(t: Timer) {
    t.finished
  }

  function StartTimer(tt: TimerTable, uid: nat, millis: u32): TimerTable {
    var id := Wrap(tt.ids + 1);
    var t := Timer(id, uid, millis, false);
    match First(tt.slots, IsFinished)
    case Some(j) => TimerTable(tt.slots[j := t], id)
    case None => TimerTable(tt.slots + [t], id)
  }

  predicate Cancels(uid: nat, id: u32, t: Timer) {
    (t.id == id || id == 0) && t.uid == uid
  }

  function CancelSlots(slots: seq<Timer>, uid: nat, id: u32): (r: seq<Timer>)
    ensures |r| == |slots|
    ensures forall j :: 0 <= j < |slots| ==>
              r[j] == if Cancels(uid, id, slots[j]) then slots[j].(finished := true) else slots[j]
  {
    seq(|slots|, j requires 0 <= j < |slots| =>
      if Cancels(uid, id, slots[j]) then slots[j].(finished := true) else slots[j])
  }

  // ---------------------------------------------------------------- runs

  datatype TimerOp = Tick | Start(uid: nat, millis: u32) | Cancel(uid: nat, id: u32)

  function ApplyTimer(tt: TimerTable, op: TimerOp): TimerTable {
    match op
    case Tick => tt.(slots := TickSlots(tt.slots))
    case Start(uid, millis) => StartTimer(tt, uid, millis)
    case Cancel(uid, id) => tt.(slots := CancelSlots(tt.slots, uid, id))
  }

  function RunTimers(tt: TimerTable, ops: seq<TimerOp>): TimerTable
    decreases |ops|
  {
    if ops == [] then tt else RunTimers(ApplyTimer(tt, ops[0]), ops[1..])
  }

  function TimerTicks(ops: seq<TimerOp>): nat {
    if ops == [] then 0 else (if ops[0].Tick? then 1 else 0) + TimerTicks(ops[1..])
  }

  function TimerStarts(ops: seq<TimerOp>): nat {
    if ops == [] then 0 else (if ops[0].Start? then 1 else 0) + TimerStarts(ops[1..])
  }

  function CountId(ts: seq<Timer>, id: u32): nat {
    if ts == [] then 0
    else
      var n := |ts| - 1;
      CountId(ts[..n], id) + (if ts[n].id == id then 1 else 0)
  }

  /** Events carrying `id` that one operation, or a whole run, pushes. */
  function FiresAt(tt: TimerTable, op: TimerOp, id: u32): nat {
    if op.Tick? then CountId(DueTimers(tt.slots), id) else 0
  }

  function FireCount(tt: TimerTable, ops: seq<TimerOp>, id: u32): nat
    decreases |ops|
  {
    if ops == [] then 0
    else FiresAt(tt, ops[0], id) + FireCount(ApplyTimer(tt, ops[0]), ops[1..], id)
  }

  /** max(1, ceil(m / 10)): the tick on which a timer of m milliseconds fires. */
  function FiringTick(m: u32): nat {
    if m <= 10 then 1 else (m + 9) / 10
  }

  ghost predicate NeverCancelled(ops: seq<TimerOp>, uid: nat, id: u32) {
    forall i :: 0 <= i < |ops| && ops[i].Cancel? && ops[i].uid == uid ==> ops[i].id != id && ops[i].id != 0
  }

  ghost predicate UnfinishedAt(slots: seq<Timer>, j: int) {
    0 <= j < |slots| && !slots[j].finished
  }

  /** Unfinished timers carry distinct ids between 1 and the last id handed out. */
  ghost predicate IdsValid(tt: TimerTable) {
    && (forall j :: UnfinishedAt(tt.slots, j) ==> 1 <= tt.slots[j].id <= tt.ids)
    && (forall i, j :: UnfinishedAt(tt.slots, i) && UnfinishedAt(tt.slots, j) && i != j
          ==> tt.slots[i].id != tt.slots[j].id)
  }

  ghost predicate Absent(tt: TimerTable, id: u32) {
    forall j :: UnfinishedAt(tt.slots, j) ==> tt.slots[j].id != id
  }

  // ---------------------------------------------------------------- lemmas

  /** The wrapping test is exactly "at most ten milliseconds left". */
  lemma DueIffTenOrLess(t: Timer)
    ensures Due(t) <==> !t.finished && t.left <= 10
  {
    if t.left >= 10 {
      assert Wrap(t.left - 10) == t.left - 10;
    } else {
      assert Wrap(t.left - 10) == t.left - 10 + WORD;
    }
  }

  lemma {:induction false} CountDue(slots: seq<Timer>, id: u32)
    ensures CountId(DueTimers(slots), id) > 0
            <==> exists j :: UnfinishedAt(slots, j) && Due(slots[j]) && slots[j].id == id
  {
    if slots != [] {
      var n := |slots| - 1;
      var front := slots[..n];
      CountDue(front, id);
      var d := DueTimers(front);
      if Due(slots[n]) {
        assert (d + [slots[n]])[..|d|] == d;
        assert UnfinishedAt(slots, n);
      } else {
        assert d + [] == d;
      }
      if j :| UnfinishedAt(front, j) && Due(front[j]) && front[j].id == id {
        assert UnfinishedAt(slots, j);
      }
      if j :| UnfinishedAt(slots, j) && Due(slots[j]) && slots[j].id == id && j != n {
        assert UnfinishedAt(front, j);
      }
    }
  }

  /** With distinct ids at most one timer of a given id fires at a tick. */
  lemma {:induction false} CountDueAtMostOne(slots: seq<Timer>, id: u32)
    requires forall i, j :: UnfinishedAt(slots, i) && UnfinishedAt(slots, j) && i != j ==> slots[i].id != slots[j].id
    ensures CountId(DueTimers(slots), id) <= 1
  {
    if slots != [] {
      var n := |slots| - 1;
      var front := slots[..n];
      forall i, j | UnfinishedAt(front, i) && UnfinishedAt(front, j) && i != j
        ensures front[i].id != front[j].id
      {
        assert UnfinishedAt(slots, i) && UnfinishedAt(slots, j);
      }
      CountDueAtMostOne(front, id);
      CountDue(front, id);
      var d := DueTimers(front);
      if Due(slots[n]) {
        assert (d + [slots[n]])[..|d|] == d;
        assert UnfinishedAt(slots, n);
        if CountId(d, id) > 0 {
          var j :| UnfinishedAt(front, j) && Due(front[j]) && front[j].id == id;
          assert UnfinishedAt(slots, j) && slots[j].id != slots[n].id;
        }
      } else {
        assert d + [] == d;
      }
    }
  }

  /** Slot the next started timer takes. */
  function StartSlot(tt: TimerTable): nat {
    match First(tt.slots, IsFinished)
    case Some(j) => j
    case None => |tt.slots|
  }

  /** An unfinished timer after an operation was unfinished before it in the same slot, or has just been started. */
  lemma UnfinishedOrigin(tt: TimerTable, op: TimerOp, j: int)
    requires UnfinishedAt(ApplyTimer(tt, op).slots, j)
    ensures var t := ApplyTimer(tt, op).slots[j];
            if op.Start? && j == StartSlot(tt) then
              t == Timer(Wrap(tt.ids + 1), op.uid, op.millis, false) && !UnfinishedAt(tt.slots, j)
            else UnfinishedAt(tt.slots, j) && t.id == tt.slots[j].id && t.uid == tt.slots[j].uid
  {
  }

  /** Ids stay valid over every operation until the 32-bit counter wraps. */
  lemma IdsStayValid(tt: TimerTable, op: TimerOp)
    requires IdsValid(tt)
    requires op.Start? ==> tt.ids + 1 < WORD
    ensures IdsValid(ApplyTimer(tt, op))
  {
    var r := ApplyTimer(tt, op);
    forall j | UnfinishedAt(r.slots, j)
      ensures 1 <= r.slots[j].id <= r.ids
    {
      UnfinishedOrigin(tt, op, j);
    }
    forall i, j | UnfinishedAt(r.slots, i) && UnfinishedAt(r.slots, j) && i != j
      ensures r.slots[i].id != r.slots[j].id
    {
      UnfinishedOrigin(tt, op, i);
      UnfinishedOrigin(tt, op, j);
    }
  }

  lemma StaysAbsent(tt: TimerTable, op: TimerOp, id: u32)
    requires IdsValid(tt) && Absent(tt, id) && id <= tt.ids
    requires op.Start? ==> tt.ids + 1 < WORD
    ensures Absent(ApplyTimer(tt, op), id) && id <= ApplyTimer(tt, op).ids
  {
    var r := ApplyTimer(tt, op);
    forall j | UnfinishedAt(r.slots, j)
      ensures r.slots[j].id != id
    {
      UnfinishedOrigin(tt, op, j);
    }
  }

  /** An id no unfinished timer carries never fires again. */
  lemma {:induction false} AbsentNeverFires(tt: TimerTable, ops: seq<TimerOp>, id: u32)
    requires IdsValid(tt) && Absent(tt, id) && id <= tt.ids
    requires tt.ids + TimerStarts(ops) < WORD
    ensures FireCount(tt, ops, id) == 0
    decreases |ops|
  {
    if ops != [] {
      CountDue(tt.slots, id);
      IdsStayValid(tt, ops[0]);
      StaysAbsent(tt, ops[0], id);
      AbsentNeverFires(ApplyTimer(tt, ops[0]), ops[1..], id);
    }
  }

  /** One operation on an uncancelled timer: it fires exactly when due and otherwise keeps its slot. */
  lemma TimerStep(tt: TimerTable, op: TimerOp, j: nat)
    requires IdsValid(tt) && UnfinishedAt(tt.slots, j)
    requires op.Start? ==> tt.ids + 1 < WORD
    requires op.Cancel? && op.uid == tt.slots[j].uid ==> op.id != tt.slots[j].id && op.id != 0
    ensures var t := tt.slots[j];
            var r := ApplyTimer(tt, op);
            if op.Tick? && t.left <= 10 then FiresAt(tt, op, t.id) == 1 && Absent(r, t.id)
            else FiresAt(tt, op, t.id) == 0 && UnfinishedAt(r.slots, j)
                 && r.slots[j] == if op.Tick? then t.(left := t.left - 10) else t
  {
    var t := tt.slots[j];
    DueIffTenOrLess(t);
    if op.Tick? {
      CountDue(tt.slots, t.id);
      CountDueAtMostOne(tt.slots, t.id);
      var r := ApplyTimer(tt, op);
      if t.left > 10 {
        assert Wrap(t.left - 10) == t.left - 10;
      } else {
        forall i | UnfinishedAt(r.slots, i)
          ensures r.slots[i].id != t.id
        {
          assert UnfinishedAt(tt.slots, i) && i != j;
        }
      }
    }
  }

  /**
   * A timer that is not cancelled pushes exactly one event, on tick max(1, ceil(m/10)):
   * none while fewer ticks have passed, one from then on, for every 32-bit m and whatever
   * other timers are started, cancelled or reuse slots meanwhile.
   */
  lemma {:induction false} FiresExactlyOnce(tt: TimerTable, ops: seq<TimerOp>, j: nat)
    requires IdsValid(tt) && UnfinishedAt(tt.slots, j)
    requires NeverCancelled(ops, tt.slots[j].uid, tt.slots[j].id)
    requires tt.ids + TimerStarts(ops) < WORD
    ensures FireCount(tt, ops, tt.slots[j].id) == if TimerTicks(ops) >= FiringTick(tt.slots[j].left) then 1 else 0
    decreases |ops|
  {
    if ops != [] {
      var t := tt.slots[j];
      var r := ApplyTimer(tt, ops[0]);
      TimerStep(tt, ops[0], j);
      IdsStayValid(tt, ops[0]);
      forall i | 0 <= i < |ops[1..]| && ops[1..][i].Cancel? && ops[1..][i].uid == t.uid
        ensures ops[1..][i].id != t.id && ops[1..][i].id != 0
      {
        assert ops[1..][i] == ops[i + 1];
      }
      if ops[0].Tick? && t.left <= 10 {
        AbsentNeverFires(r, ops[1..], t.id);
      } else {
        FiresExactlyOnce(r, ops[1..], j);
      }
    }
  }

  /** A timer cancelled by its owner, by id or with id 0, pushes nothing afterwards. */
  lemma CancelledNeverFires(tt: TimerTable, cancelId: u32, ops: seq<TimerOp>, j: nat)
    requires IdsValid(tt) && UnfinishedAt(tt.slots, j)
    requires cancelId == 0 || cancelId == tt.slots[j].id
    requires tt.ids + TimerStarts(ops) < WORD
    ensures FireCount(tt, [Cancel(tt.slots[j].uid, cancelId)] + ops, tt.slots[j].id) == 0
  {
    var t := tt.slots[j];
    var op := Cancel(t.uid, cancelId);
    IdsStayValid(tt, op);
    var r := ApplyTimer(tt, op);
    forall i | UnfinishedAt(r.slots, i)
      ensures r.slots[i].id != t.id
    {
      assert UnfinishedAt(tt.slots, i);
    }
    AbsentNeverFires(r, ops, t.id);
    assert ([op] + ops)[1..] == ops;
  }

  lemma StartedSlot(tt: TimerTable, uid: nat, m: u32)
    ensures var r := StartTimer(tt, uid, m);
            && UnfinishedAt(r.slots, StartSlot(tt))
            && r.slots[StartSlot(tt)] == Timer(Wrap(tt.ids + 1), uid, m, false)
            && r.ids == Wrap(tt.ids + 1)
  {
  }

  /**
   * The whole promise of starting a timer: with m milliseconds and no cancellation it pushes one
   * event, on tick max(1, ceil(m/10)) after its start, until the id counter wraps.
   */
  lemma StartedFiresOnce(tt: TimerTable, uid: nat, m: u32, ops: seq<TimerOp>)
    requires IdsValid(tt) && tt.ids + 1 + TimerStarts(ops) < WORD
    requires NeverCancelled(ops, uid, tt.ids + 1)
    ensures FireCount(StartTimer(tt, uid, m), ops, tt.ids + 1) == if TimerTicks(ops) >= FiringTick(m) then 1 else 0
  {
    var r := StartTimer(tt, uid, m);
    IdsStayValid(tt, Start(uid, m));
    StartedSlot(tt, uid, m);
    assert Wrap(tt.ids + 1) == tt.ids + 1;
    FiresExactlyOnce(r, ops, StartSlot(tt));
  }
}
