/** Runs from a fresh heap that end in the allocations heap.c does not survive. */
module HeapFailures {
  import opened Words
  import opened HeapBlocks
  import opened HeapProofs

  /** A header was written past the end of its block, or would have been but for the page fault. */
  predicate Overruns(o: Outcome) {
    o.Corrupted? || o.Faulted?
  }

  lemma PlaceDiffersIff(bs: seq<Block>, i: nat, size: nat)
    requires i < |bs| && bs[i].size >= size
    ensures Place(bs, i, size, Compiled) != Place(bs, i, size, Intended) <==> Overruns(Place(bs, i, size).outcome)
  {
  }

  /** The two tests give different results exactly where the compiled one writes past a block. */
  lemma TestsDifferIff(bs: seq<Block>, size: nat)
    requires WellFormed(bs)
    ensures Allocate(bs, size, Compiled) != Allocate(bs, size, Intended) <==> Overruns(Allocate(bs, size).outcome)
  {
    var es := Searched(bs, size);
    var i := FirstFit(es, size);
    if i.Some? {
      PlaceDiffersIff(es, i.value, size);
    }
  }

  /** The operations of a run one by one: all return, and lead through the listed heaps. */
  ghost predicate Leads(heaps: seq<seq<Block>>, ops: seq<HeapOp>) {
    && |heaps| == |ops| + 1
    && forall i :: 0 <= i < |ops| ==>
         heaps[i] != [] && Step(heaps[i], ops[i]).outcome.Given? && Step(heaps[i], ops[i]).blocks == heaps[i + 1]
  }

  lemma {:induction false} LeadsRuns(heaps: seq<seq<Block>>, ops: seq<HeapOp>)
    requires Leads(heaps, ops)
    ensures Completes(heaps[0], ops) && Run(heaps[0], ops) == heaps[|ops|]
    decreases |ops|
  {
    if ops != [] {
      LeadsRuns(heaps[1..], ops[1..]);
    }
  }

  /** Splitting the block at place i, the lowest that fits. */
  lemma SplitStep(bs: seq<Block>, i: nat, size: u32)
    requires i < |bs| && size > 0 && !bs[i].taken && bs[i].size > size + HEADER
    requires forall j :: 0 <= j < i ==> bs[j].taken || bs[j].size < size
    ensures Step(bs, Alloc(size)) == Result(Given(Pointer(bs[i])), bs[..i] + Pieces(bs[i], size) + bs[i + 1..])
  {
    FirstIs(bs, (b: Block) => !b.taken && b.size >= size, i);
  }

  /** Freeing the first block of a heap whose second is taken. */
  lemma ReleaseFirst(bs: seq<Block>)
    requires |bs| >= 2 && bs[0].taken && bs[1].taken
    ensures Step(bs, Release(Pointer(bs[0]))) == Result(Given(0), bs[0 := bs[0].(taken := false)])
  {
    FirstIs(bs, (b: Block) => b.taken && Pointer(b) == Pointer(bs[0]), 0);
  }

  /** Two blocks of x and y bytes cut off a fresh heap, and the first given back. */
  function Holed(start: nat, x: nat, y: nat): seq<Block>
    requires 0 < x && 0 < y && x + y + 3 * HEADER < PAGE_SIZE
  {
    [Block(start, x, false), Block(start + HEADER + x, y, true),
     Block(start + 2 * HEADER + x + y, PAGE_SIZE - 3 * HEADER - x - y, false)]
  }

  /** A fresh heap with one block of x bytes cut off. */
  function OneCut(start: nat, x: nat): seq<Block>
    requires 0 < x && x + 2 * HEADER < PAGE_SIZE
  {
    [Block(start, x, true), Block(start + HEADER + x, PAGE_SIZE - 2 * HEADER - x, false)]
  }

  function TwoCut(start: nat, x: nat, y: nat): seq<Block>
    requires 0 < x && 0 < y && x + y + 3 * HEADER < PAGE_SIZE
  {
    Holed(start, x, y)[0 := Block(start, x, true)]
  }

  lemma FirstCut(start: nat, x: nat)
    requires 0 < x && x + 2 * HEADER < PAGE_SIZE
    ensures Step(Fresh(start), Alloc(x)) == Result(Given(start + HEADER), OneCut(start, x))
  {
    var bs := Fresh(start);
    SplitStep(bs, 0, x);
    assert bs[..0] + Pieces(bs[0], x) + bs[1..] == OneCut(start, x);
  }

  lemma SecondCut(start: nat, x: nat, y: nat)
    requires 0 < x && 0 < y && x + y + 3 * HEADER < PAGE_SIZE
    ensures Step(OneCut(start, x), Alloc(y)) == Result(Given(start + HEADER + x + HEADER), TwoCut(start, x, y))
  {
    var bs := OneCut(start, x);
    SplitStep(bs, 1, y);
    assert bs[..1] + Pieces(bs[1], y) + bs[2..] == TwoCut(start, x, y);
  }

  /** The first pointers a process gets: one header into its page, and one header past the first block. */
  lemma FirstPointers(start: nat)
    ensures Fresh(start) == [Block(start, 4080, false)]
    ensures var r := Step(Fresh(start), Alloc(100));
            && r == Result(Given(start + 16), [Block(start, 100, true), Block(start + 116, 3964, false)])
            && Step(r.blocks, Alloc(200)).outcome == Given(start + 132)
  {
    FirstCut(start, 100);
    SecondCut(start, 100, 200);
  }

  lemma FirstReleased(start: nat, x: nat, y: nat)
    requires 0 < x && 0 < y && x + y + 3 * HEADER < PAGE_SIZE
    ensures Step(TwoCut(start, x, y), Release(start + HEADER)) == Result(Given(0), Holed(start, x, y))
  {
    var bs := TwoCut(start, x, y);
    ReleaseFirst(bs);
    assert bs[0 := bs[0].(taken := false)] == Holed(start, x, y);
  }

  /** Allocate x and y bytes and give the first back. */
  function HoleOps(start: nat, x: nat, y: nat): seq<HeapOp>
    requires x < PAGE_SIZE && y < PAGE_SIZE
  {
    [Alloc(x), Alloc(y), Release(start + HEADER)]
  }

  lemma HoledReached(start: nat, x: nat, y: nat)
    requires 0 < x && 0 < y && x + y + 3 * HEADER < PAGE_SIZE
    ensures Completes(Fresh(start), HoleOps(start, x, y))
    ensures Run(Fresh(start), HoleOps(start, x, y)) == Holed(start, x, y)
  {
    FirstCut(start, x);
    SecondCut(start, x, y);
    FirstReleased(start, x, y);
    var heaps := [Fresh(start), OneCut(start, x), TwoCut(start, x, y), Holed(start, x, y)];
    LeadsRuns(heaps, HoleOps(start, x, y));
  }

  /**
   * Whatever the sizes: giving a block back and asking for as much again, in a heap begun with it,
   * runs over the next header.
   */
  lemma ExactFitReached(start: nat, x: nat, y: nat)
    requires 0 < x && 0 < y && x + y + 3 * HEADER < PAGE_SIZE
    ensures var ops := HoleOps(start, x, y);
            && Completes(Fresh(start), ops)
            && Run(Fresh(start), ops) != [] && Allocate(Run(Fresh(start), ops), x).outcome == Corrupted(start + HEADER)
  {
    HoledReached(start, x, y);
    var bs := Holed(start, x, y);
    FirstIs(bs, (b: Block) => !b.taken && b.size >= x, 0);
  }

  /**
   * A freed block's pointer moved to a request that block is chosen for: after three calls a
   * fourth returns a pointer to a block that is free.
   */
  lemma ResizeFreedReached(start: nat, x: nat, y: nat, z: nat)
    requires 0 < start < WORD - PAGE_SIZE && 0 < y && x + y + 3 * HEADER < PAGE_SIZE && 0 < z && z + HEADER < x
    ensures var ops := HoleOps(start, x, y);
            && Completes(Fresh(start), ops) && Run(Fresh(start), ops) != []
            && var r := Step(Run(Fresh(start), ops), Resize(start + HEADER, z));
               r.outcome == Given(start + HEADER) && FindPointer(r.blocks, start + HEADER) == None
  {
    HoledReached(start, x, y);
    HoledWellFormed(start, x, y);
    var hs := Holed(start, x, y);
    assert hs[0] == Block(start, x, false) && Pointer(hs[0]) == start + HEADER;
    HoleResized(hs, z);
  }

  lemma HoledWellFormed(start: nat, x: nat, y: nat)
    requires 0 < start < WORD - PAGE_SIZE && 0 < x && 0 < y && x + y + 3 * HEADER < PAGE_SIZE
    ensures WellFormed(Holed(start, x, y))
  {
    SomeFree(Holed(start, x, y), 0);
  }

  /** Where the first block is free and large enough to split, moving its pointer frees it again. */
  lemma HoleResized(bs: seq<Block>, z: u32)
    requires WellFormed(bs) && !bs[0].taken && 0 < z && z + HEADER < bs[0].size
    ensures var r := Step(bs, Resize(Pointer(bs[0]), z));
            r.outcome == Given(Pointer(bs[0])) && FindPointer(r.blocks, Pointer(bs[0])) == None
  {
    HoleTaken(bs, z);
    var b := ReallocateFreedIff(bs, 0, z);
    var rs := Reallocate(bs, Pointer(bs[0]), z).blocks;
    assert Live(rs) == Live(bs);
    NoLiveAt(bs, 0, rs);
  }

  lemma HoleTaken(bs: seq<Block>, z: u32)
    requires bs != [] && !bs[0].taken && 0 < z && z + HEADER < bs[0].size
    ensures FirstFit(Searched(bs, z), z) == Some(0) && Allocate(bs, z).outcome == Given(Pointer(bs[0]))
  {
    FirstIs(bs, (b: Block) => !b.taken && b.size >= z, 0);
    SplitStep(bs, 0, z);
  }

  /** One call on a fresh heap, for a size so near 2^32 that adding the 16 bytes in use wraps, is retried for ever. */
  lemma WrapReached(start: nat, size: u32)
    requires 0 < start < WORD - PAGE_SIZE && size >= WORD - HEADER
    ensures Step(Fresh(start), Alloc(size)) == Result(Endless, Fresh(start))
  {
    FreshWellFormed(start);
    WrapsEndless(Fresh(start), size);
  }

  /** One call on a fresh heap, for all of its free bytes or up to 15 fewer, writes a header off its only page. */
  lemma FaultReached(start: nat, size: u32)
    requires 0 < start < WORD - PAGE_SIZE && PAGE_SIZE - 2 * HEADER < size <= PAGE_SIZE - HEADER
    ensures Step(Fresh(start), Alloc(size)).outcome == Faulted
  {
    FirstIs(Fresh(start), (b: Block) => !b.taken && b.size >= size, 0);
  }

  /** With the rest taken whole, a request the hole is too small for is retried for ever. */
  lemma EndlessReached(start: nat)
    requires 0 < start < WORD - 2 * PAGE_SIZE
    ensures var ops := HoleOps(start, 100, 200) + [Alloc(3732)];
            && Completes(Fresh(start), ops)
            && Run(Fresh(start), ops) != [] && Allocate(Run(Fresh(start), ops), 200).outcome == Endless
  {
    var bs := Holed(start, 100, 200);
    HoledReached(start, 100, 200);
    var cs := bs[2 := Claimed(bs[2])];
    FirstIs(bs, (b: Block) => !b.taken && b.size >= 3732, 2);
    FirstIs(cs, IsFree, 0);
    assert Step(bs, Alloc(3732)) == Result(Given(Pointer(bs[2])), cs);
    RunsOn(Fresh(start), HoleOps(start, 100, 200), Alloc(3732));
    NothingFits(cs);
  }

  lemma {:induction false} RunsOn(bs: seq<Block>, ops: seq<HeapOp>, op: HeapOp)
    requires Completes(bs, ops) && Run(bs, ops) != [] && Step(Run(bs, ops), op).outcome.Given?
    ensures Completes(bs, ops + [op]) && Run(bs, ops + [op]) == Step(Run(bs, ops), op).blocks
    decreases |ops|
  {
    if ops == [] {
      assert [op][1..] == [];
    } else {
      assert (ops + [op])[1..] == ops[1..] + [op];
      RunsOn(Step(bs, ops[0]).blocks, ops[1..], op);
    }
  }

  lemma NothingFits(cs: seq<Block>)
    requires |cs| == 3 && !cs[0].taken && cs[0].size == 100
    requires cs[1].taken && cs[1].size == 200 && cs[2].taken && cs[2].size == 3748
    requires Tiles(cs) && cs[0].addr < WORD - 2 * PAGE_SIZE
    ensures Allocate(cs, 200).outcome == Endless
  {
    var l := cs[2];
    assert FirstFit(cs, 200).None?;
    AccountsForAll(cs);
    assert cs[..3] == cs && Used(cs) == Total(cs) - 100 by {
      FreeIs(cs);
    }
    var es := Expand(cs, 200);
    assert FirstFit(es, 200).None?;
  }

  lemma FreeIs(cs: seq<Block>)
    requires |cs| == 3 && !cs[0].taken && cs[0].size == 100 && cs[1].taken && cs[2].taken
    ensures FreeBytes(cs) == 100
  {
    assert cs == [cs[0]] + [cs[1]] + [cs[2]];
    Concat3([cs[0]], [cs[1]], [cs[2]]);
    UsedOne(cs[0]);
    UsedOne(cs[1]);
    UsedOne(cs[2]);
  }
}
