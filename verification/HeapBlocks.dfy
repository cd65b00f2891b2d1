/**
 * The heap of TomatKernel/core/memory/heap.c as the list of its blocks in address order, and
 * what allocating, freeing, reallocating and growing do to that list.
 */
module HeapBlocks {
  import opened Words

  const HEADER: nat := 16
  const PAGE_SIZE: nat := 4096

  datatype Block = Block(addr: nat, size: nat, taken: bool)

  /** First address after the payload of b. */
  function End(b: Block): nat {
    b.addr + HEADER + b.size
  }

  predicate IsFree(b: Block) {
    !b.taken
  }

  // ---------------------------------------------------------------- shape

  /** Each block begins where the one before it ends. */
  ghost predicate Tiles(bs: seq<Block>) {
    forall i :: 0 < i < |bs| ==> bs[i].addr == End(bs[i - 1])
  }

  ghost predicate NoAdjacentFree(bs: seq<Block>) {
    forall i :: 0 < i < |bs| ==> bs[i - 1].taken || bs[i].taken
  }

  /** The shape every operation keeps: a tiling of non-empty blocks, free blocks apart, at least one free. */
  ghost predicate WellFormed(bs: seq<Block>) {
    && bs != [] && bs[0].addr > 0 && End(bs[|bs| - 1]) < WORD
    && Tiles(bs)
    && NoAdjacentFree(bs)
    && (forall i :: 0 <= i < |bs| ==> bs[i].size > 0)
    && First(bs, IsFree).Some?
  }

  /** All header sizes and the payload sizes of allocated blocks. */
  function Used(bs: seq<Block>): nat {
    if bs == [] then 0
    else
      var b := bs[|bs| - 1];
      Used(bs[..|bs| - 1]) + HEADER + (if b.taken then b.size else 0)
  }

  function FreeBytes(bs: seq<Block>): nat {
    if bs == [] then 0
    else
      var b := bs[|bs| - 1];
      FreeBytes(bs[..|bs| - 1]) + (if b.taken then 0 else b.size)
  }

  /** Bytes from the first header to the end of the last payload. */
  function Total(bs: seq<Block>): int
    requires bs != []
  {
    End(bs[|bs| - 1]) - bs[0].addr
  }

  ghost predicate LiveAt(bs: seq<Block>, i: int) {
    0 <= i < |bs| && bs[i].taken
  }

  /** The pointer handed out for block b. */
  function Pointer(b: Block): nat {
    b.addr + HEADER
  }

  predicate InPayload(b: Block, a: int) {
    Pointer(b) <= a < End(b)
  }

  /** Slot of the live block a pointer names. */
  function FindPointer(bs: seq<Block>, ptr: nat): Option<nat> {
    First(bs, (b: Block) => b.taken && Pointer(b) == ptr)
  }

  // ---------------------------------------------------------------- allocate

  /** First fit: the lowest free block that is large enough. */
  function FirstFit(bs: seq<Block>, size: nat): Option<nat> {
    First(bs, (b: Block) => !b.taken && b.size >= size)
  }

  datatype Outcome =
    | Given(ptr: nat)        // a pointer, or 0 for a request of no bytes
    | Panicked               // kpanic: no free block would be left
    | Corrupted(ptr: nat)    // a pointer too, but a header was written past the end of its block
    | Faulted                // a page fault: a header written off the heap, where no page is mapped
    | Endless                // the retry can never succeed
    | OutOfAddressSpace      // growing would reach 2^32

  datatype Result = Result(outcome: Outcome, blocks: seq<Block>)

  /** The split test of the code, and the one it is meant to be: split only if more than a header is left. */
  datatype Test = Compiled | Intended

  /** The split test as compiled: `block->size - size - sizeof(heap_block_t) > 0` on unsigned words. */
  predicate SplitTest(blockSize: int, size: int) {
    Wrap(blockSize - size - HEADER) > 0
  }

  /** The two pieces block b is cut into for a request of `size` bytes. */
  function Pieces(b: Block, size: nat): seq<Block>
    requires b.size > size + HEADER
  {
    [Block(b.addr, size, true), Block(b.addr + HEADER + size, b.size - size - HEADER, false)]
  }

  function Claimed(b: Block): Block {
    b.(taken := true)
  }

  /**
   * Allocating from block i, which fits. With less than a header to spare the compiled test still
   * splits; the header it writes runs into the next block, or, after the last one, off the heap.
   */
  function Place(bs: seq<Block>, i: nat, size: nat, test: Test := Compiled): Result
    requires i < |bs| && bs[i].size >= size
  {
    var b := bs[i];
    if test.Compiled? && b.size < size + HEADER then
      Result(if i + 1 < |bs| then Corrupted(Pointer(b)) else Faulted, bs)
    else if b.size > size + HEADER then Result(Given(Pointer(b)), bs[..i] + Pieces(b, size) + bs[i + 1..])
    else if First(bs[i := Claimed(b)], IsFree).None? then Result(Panicked, bs)
    else Result(Given(Pointer(b)), bs[i := Claimed(b)])
  }

  /** Pages `expand` adds: the fewest after which used + size, a sum of 32-bit words, is below total. */
  function PagesNeeded(used: int, size: int, total: int): (n: nat)
    ensures Wrap(used + size) < total + n * PAGE_SIZE
    ensures n > 0 ==> Wrap(used + size) >= total + (n - 1) * PAGE_SIZE
  {
    if Wrap(used + size) < total then 0 else (Wrap(used + size) - total) / PAGE_SIZE + 1
  }

  /** The last block, allocated or not, grows by n pages. */
  function Grown(bs: seq<Block>, n: nat): seq<Block>
    requires bs != []
  {
    var l := |bs| - 1;
    bs[l := bs[l].(size := bs[l].size + n * PAGE_SIZE)]
  }

  function Expand(bs: seq<Block>, size: nat): seq<Block>
    requires bs != []
  {
    Grown(bs, PagesNeeded(Used(bs), size, Total(bs)))
  }

  function Allocate(bs: seq<Block>, size: nat, test: Test := Compiled): Result
    requires bs != []
  {
    if size == 0 then Result(Given(0), bs)
    else
      match FirstFit(bs, size)
      case Some(i) => Place(bs, i, size, test)
      case None =>
        var es := Expand(bs, size);
        if End(es[|es| - 1]) >= WORD then Result(OutOfAddressSpace, bs)
        else match FirstFit(es, size)
             case Some(i) => Place(es, i, size, test)
             case None => Result(Endless, es)
  }

  // ---------------------------------------------------------------- free

  /** Block i swallows block i + 1. */
  function Join(bs: seq<Block>, i: nat): seq<Block>
    requires i + 1 < |bs|
  {
    bs[..i] + [bs[i].(size := bs[i].size + HEADER + bs[i + 1].size)] + bs[i + 2..]
  }

  function JoinNext(bs: seq<Block>, i: nat): (r: seq<Block>)
    requires i < |bs|
    ensures i < |r| && r[..i] == bs[..i]
  {
    if i + 1 < |bs| && !bs[i + 1].taken then Join(bs, i) else bs
  }

  /** `merge_empty_blocks`: take in the next block if it is free, then go on from the one before if it is free. */
  function Merge(bs: seq<Block>, i: nat): seq<Block>
    requires i < |bs|
    decreases i
  {
    var js := JoinNext(bs, i);
    if i > 0 && !js[i - 1].taken then Merge(js, i - 1) else js
  }

  /** Where the block merged from block i ends up. */
  function MergeIndex(bs: seq<Block>, i: nat): (m: nat)
    requires i < |bs|
    ensures m <= i && m < |Merge(bs, i)|
    decreases i
  {
    var js := JoinNext(bs, i);
    if i > 0 && !js[i - 1].taken then MergeIndex(js, i - 1) else i
  }

  function Free(bs: seq<Block>, i: nat): seq<Block>
    requires i < |bs|
  {
    Merge(bs[i := bs[i].(taken := false)], i)
  }

  // ---------------------------------------------------------------- reallocate

  /** Some block, allocated or not, has its payload at ptr. */
  predicate NamesBlock(bs: seq<Block>, ptr: nat) {
    exists i :: 0 <= i < |bs| && Pointer(bs[i]) == ptr
  }

  /** `heap_free` of anything but a live pointer leaves the blocks alone. */
  function FreePointer(bs: seq<Block>, ptr: nat): seq<Block> {
    match FindPointer(bs, ptr)
    case Some(i) => Free(bs, i)
    case None => bs
  }

  /** Allocate, then free the old block; a pointer to no block is just an allocation. */
  function Reallocate(bs: seq<Block>, ptr: nat, size: nat, test: Test := Compiled): Result
    requires bs != []
  {
    var r := Allocate(bs, size, test);
    if NamesBlock(bs, ptr) && r.outcome.Given? then Result(r.outcome, FreePointer(r.blocks, ptr)) else r
  }

  // ---------------------------------------------------------------- runs

  datatype HeapOp = Alloc(size: u32) | Release(ptr: nat) | Resize(ptr: nat, newSize: u32)

  function Step(bs: seq<Block>, op: HeapOp, test: Test := Compiled): Result
    requires bs != []
  {
    match op
    case Alloc(size) => Allocate(bs, size, test)
    case Release(ptr) => Result(Given(0), FreePointer(bs, ptr))
    case Resize(ptr, size) => Reallocate(bs, ptr, size, test)
  }

  /** Every operation of the run returns, and none has written a header past the end of its block. */
  predicate Completes(bs: seq<Block>, ops: seq<HeapOp>, test: Test := Compiled)
    decreases |ops|
  {
    || ops == []
    || (bs != [] && Step(bs, ops[0], test).outcome.Given? && Completes(Step(bs, ops[0], test).blocks, ops[1..], test))
  }

  function Run(bs: seq<Block>, ops: seq<HeapOp>, test: Test := Compiled): seq<Block>
    requires Completes(bs, ops, test)
    decreases |ops|
  {
    if ops == [] then bs else Run(Step(bs, ops[0], test).blocks, ops[1..], test)
  }

  /** `heap_create` of a process heap: one page, one free block. */
  function Fresh(start: nat): seq<Block> {
    [Block(start, PAGE_SIZE - HEADER, false)]
  }
}
