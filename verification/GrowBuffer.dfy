/**
 * The growable array of TomatKernel/core/sbuf.c and sbuf.h, with the removal from the front that
 * the event queues of core/process/process.c add to it.
 */
module GrowBuffer {
  import opened Words
  import Strings

  function Max(a: int, b: int): int {
    if a >= b then a else b
  }

  /** Capacity `buf__grow` chooses. */
  function GrownCap(cap: nat, newLen: nat): nat {
    Max(2 * cap, Max(newLen, 16))
  }

  const HEADER: nat := 8

  // ---------------------------------------------------------------- what a buffer holds and has cost

  /** Elements in order, room for them, and how many elements growing has copied so far. */
  datatype Buffer<T> = Buffer(items: seq<T>, cap: nat, copied: nat)

  datatype BufferOp<T> = Push(item: T) | Pull

  function Fitted<T>(b: Buffer<T>, n: nat): Buffer<T> {
    if n <= b.cap then b else b.(cap := GrownCap(b.cap, n), copied := b.copied + b.cap)
  }

  /** One push, or one removal from the front of a buffer that holds something. */
  function Apply<T>(b: Buffer<T>, op: BufferOp<T>): Buffer<T> {
    match op
    case Push(x) => Fitted(b, |b.items| + 1).(items := b.items + [x])
    case Pull => if b.items == [] then b else b.(items := b.items[1..])
  }

  function Run<T>(ops: seq<BufferOp<T>>): Buffer<T> {
    if ops == [] then Buffer([], 0, 0) else Apply(Run(ops[..|ops| - 1]), ops[|ops| - 1])
  }

  function Pushed<T>(ops: seq<BufferOp<T>>): seq<T> {
    if ops == [] then []
    else Pushed(ops[..|ops| - 1]) + match ops[|ops| - 1] case Push(x) => [x] case Pull => []
  }

  function Pulled<T>(ops: seq<BufferOp<T>>): seq<T> {
    if ops == [] then []
    else
      var front := ops[..|ops| - 1];
      Pulled(front) + if ops[|ops| - 1].Pull? && Run(front).items != [] then [Run(front).items[0]] else []
  }

  /** Over every run what came out, followed by what is still inside, is what went in, in order. */
  lemma {:induction false} InOrder<T>(ops: seq<BufferOp<T>>)
    ensures Pulled(ops) + Run(ops).items == Pushed(ops)
  {
    if ops != [] {
      var front := ops[..|ops| - 1];
      InOrder(front);
      var b := Run(front);
      if ops[|ops| - 1].Pull? && b.items != [] {
        assert b.items == [b.items[0]] + b.items[1..];
      }
    }
  }

  /** Growing doubles, so n > 0 pushes copy fewer than 2n elements in all, and the items always fit. */
  lemma {:induction false} CopiesFewerThanTwice<T>(ops: seq<BufferOp<T>>)
    ensures var b := Run(ops);
            && |b.items| <= b.cap && |b.items| <= |Pushed(ops)|
            && (Pushed(ops) != [] ==> b.copied < 2 * |Pushed(ops)|)
    ensures Accounted(Run(ops), |Pushed(ops)|)
  {
    if ops != [] {
      CopiesFewerThanTwice(ops[..|ops| - 1]);
    }
  }

  /** Each growth left the capacity at 16 or at twice an earlier one, and copied that earlier one. */
  predicate Accounted<T>(b: Buffer<T>, pushes: nat) {
    if b.cap == 0 then b.copied == 0 && pushes == 0
    else pushes > 0 && b.copied + 16 == b.cap && (b.cap == 16 || b.cap < 2 * pushes)
  }

  /**
   * The size of the grown block is computed in 32 bits. When a full buffer grows for one more
   * element, the block holds even the old elements if and only if that sum does not wrap.
   */
  lemma GrownBlockHoldsIff(cap: nat, elemSize: nat)
    requires cap >= 16 && elemSize > 0 && HEADER + cap * elemSize < WORD
    ensures var need := HEADER + GrownCap(cap, cap + 1) * elemSize;
            Wrap(need) >= HEADER + cap * elemSize <==> need < WORD
  {
    var half := cap * elemSize;
    assert GrownCap(cap, cap + 1) * elemSize == 2 * half by {
      assert GrownCap(cap, cap + 1) == 2 * cap;
    }
    if HEADER + 2 * half >= WORD {
      assert Wrap(HEADER + 2 * half) == HEADER + 2 * half - WORD;
    }
  }

  // ---------------------------------------------------------------- the buffer itself

  class Growable<T(0)> {
    var data: array?<T>
    var len: nat
    const elemSize: nat
    ghost var copied: nat

    ghost predicate Valid()
      reads this, data
    {
      if data == null then len == 0 else len <= data.Length
    }

    /** `buf_cap`. */
    function Cap(): nat
      reads this, data
    {
      if data == null then 0 else data.Length
    }

    ghost function State(): Buffer<T>
      reads this, data
      requires Valid()
    {
      Buffer(if data == null then [] else data[..len], Cap(), copied)
    }

    /** A buffer starts as NULL. */
    constructor (elemSize: nat)
      ensures Valid() && data == null && State() == Buffer([], 0, 0) && this.elemSize == elemSize
    {
      data := null;
      len := 0;
      copied := 0;
      this.elemSize := elemSize;
    }

    /** `buf__grow`: the block handed out fits a 32-bit size. */
    method Grow(newLen: nat)
      requires Valid() && newLen > Cap() && HEADER + GrownCap(Cap(), newLen) * elemSize < WORD
      modifies this
      ensures Valid() && data != null && fresh(data)
      ensures State() == Fitted(old(State()), newLen)
    {
      var newCap := Max(2 * Cap(), Max(newLen, 16));
      var bigger := new T[newCap];
      if data != null {
        Strings.Memcpy(bigger, 0, data, 0, data.Length);
        copied := copied + data.Length;
      } else {
        len := 0;
      }
      data := bigger;
    }

    /** `buf_fit`. */
    method Fit(n: nat)
      requires Valid() && (n > Cap() ==> HEADER + GrownCap(Cap(), n) * elemSize < WORD)
      modifies this
      ensures Valid() && State() == Fitted(old(State()), n)
      ensures data == old(data) || (data != null && fresh(data))
    {
      if n > Cap() {
        Grow(n);
      }
    }

    /** `buf_push`. */
    method PushBack(x: T)
      requires Valid() && (len + 1 > Cap() ==> HEADER + GrownCap(Cap(), len + 1) * elemSize < WORD)
      modifies this, data
      ensures Valid() && State() == Apply(old(State()), Push(x))
      ensures data == old(data) || (data != null && fresh(data))
    {
      Fit(len + 1);
      assert len + 1 <= Cap() && data != null;
      data[len] := x;
      len := len + 1;
    }

    /** `pull_event`: the first element comes out and the others move down over it. */
    method PullFront() returns (x: T)
      requires Valid() && len > 0
      modifies this`len, data
      ensures Valid() && old(State().items != []) && x == old(State().items[0])
      ensures State() == Apply(old(State()), Pull)
    {
      ghost var items := data[..len];
      len := len - 1;
      x := data[0];
      Strings.Memmove(data, 0, data, 1, len);
      assert data[..len] == items[1..];
    }

    /** `buf_clear`: the room stays. */
    method Clear()
      requires Valid()
      modifies this`len
      ensures Valid() && State() == old(State()).(items := [])
    {
      if data != null {
        len := 0;
      }
    }

    /** `buf_free`. */
    method Free()
      requires Valid()
      modifies this
      ensures Valid() && data == null && State() == Buffer([], 0, old(copied))
    {
      data := null;
      len := 0;
    }
  }
}
