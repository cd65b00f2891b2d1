/**
 * The address space `process_create` (core/process/process.c) builds for a new process: a
 * directory with the kernel's pages, the first two megabytes of the stack, the first heap page.
 */
module ProcessSpaces {
  import opened Words
  import opened PageBits
  import opened PageTables
  import opened PageRanges
  import opened Isolation

  const STACK_SIZE: nat := 1024 * 1024 * 2
  const MAX_STACK_SIZE: nat := 1024 * 1024 * 20
  const STACK_PAGES: nat := 512

  /** Lowest stack address: 51 megabytes past the end of the kernel image. */
  function StackStart(kernelSize: nat): nat {
    KERNEL_START * 4096 + kernelSize + 1024 * 1024 * 50 + 1024 * 1024
  }

  /** Where the stack pointer starts. */
  function StackTop(kernelSize: nat): nat {
    StackStart(kernelSize) + MAX_STACK_SIZE
  }

  /** The page of the heap, one megabyte past the top of the stack. */
  function HeapPage(kernelSize: nat): nat {
    (StackTop(kernelSize) + 1024 * 1024) / 4096
  }

  /** All of it lies within 32 bits. */
  predicate SpaceFits(kernelSize: nat) {
    kernelSize > 0 && HeapPage(kernelSize) < PAGE_COUNT
  }

  predicate StackPage(kernelSize: nat, q: nat) {
    StackStart(kernelSize) / 4096 <= q < StackStart(kernelSize) / 4096 + STACK_PAGES
  }

  /** Kernel below stack below heap. */
  lemma SpaceOrder(kernelSize: nat)
    requires SpaceFits(kernelSize)
    ensures Fitting(kernelSize) && StackStart(kernelSize) < WORD
    ensures HeapStart(kernelSize) + KERNEL_HEAP_PAGES < StackStart(kernelSize) / 4096
    ensures StackStart(kernelSize) / 4096 + STACK_PAGES < StackTop(kernelSize) / 4096 < HeapPage(kernelSize)
    ensures forall q: nat :: q < PAGE_COUNT && (StackPage(kernelSize, q) || q == HeapPage(kernelSize)) ==>
             !KernelPage(kernelSize, q)
  {
    KernelBelowHeap(kernelSize);
  }

  /**
   * The process's own pages by address: 2 MB of stack from the page 51 MB past the kernel image,
   * and the page of the heap 72 MB past it; the stack pointer starts 71 MB past it.
   */
  lemma SpaceBytesIff(kernelSize: nat, a: nat)
    ensures var stack, heap := (0x10_0000 + kernelSize + 53477376) / 4096 * 4096,
                               (0x10_0000 + kernelSize + 75497472) / 4096 * 4096;
            && (StackPage(kernelSize, a / 4096) <==> stack <= a < stack + 0x20_0000)
            && (a / 4096 == HeapPage(kernelSize) <==> heap <= a < heap + 4096)
            && StackTop(kernelSize) == 0x10_0000 + kernelSize + 74448896
  {
  }

  lemma StackSpan()
    ensures PageSpan(STACK_SIZE) == STACK_PAGES
  {
    RangeMissesLast(1, STACK_PAGES);
  }

  lemma StackRange(kernelSize: nat, q: nat)
    requires SpaceFits(kernelSize) && q < PAGE_COUNT && StackStart(kernelSize) < WORD
    ensures InRange(StackStart(kernelSize), STACK_PAGES, q) <==> StackPage(kernelSize, q)
  {
    SpaceOrder(kernelSize);
  }

  // ---------------------------------------------------------------- the steps

  /** The directory d, in a page given out by the allocator. */
  ghost predicate DirectoryMade(m: Memory, s: Memory, d: nat, kernelSize: nat) {
    && |m.bits| == BITMAP_SIZE_BYTES && IsLowestFree(m.bits, d)
    && CanInit(Memory(Mark(m.bits, d), m.phys), d, kernelSize)
    && s == InitDirectory(Memory(Mark(m.bits, d), m.phys), d, kernelSize)
  }

  /** Then the stack's pages, then the heap's: s and t are the memories in between. */
  ghost predicate SpaceSteps(m: Memory, s: Memory, t: Memory, r: Memory, d: nat, kernelSize: nat) {
    && SpaceFits(kernelSize) && StackStart(kernelSize) < WORD
    && DirectoryMade(m, s, d, kernelSize)
    && RangeResult(s, t, d, StackStart(kernelSize), STACK_PAGES)
    && MapLink(t, r, d, HeapPage(kernelSize))
  }

  /** r is m after all of it. */
  ghost predicate SpaceMade(m: Memory, r: Memory, d: nat, kernelSize: nat) {
    exists s, t :: SpaceSteps(m, s, t, r, d, kernelSize)
  }

  // ---------------------------------------------------------------- what the new space translates

  /**
   * Frame of page q in a new space: the kernel's pages are themselves, stack and heap pages fresh, all
   * else unmapped.
   */
  ghost predicate NewTranslation(m: Memory, f: Option<nat>, d: nat, kernelSize: nat, q: nat)
    requires kernelSize > 0 && |m.bits| == BITMAP_SIZE_BYTES
  {
    if KernelPage(kernelSize, q) then f == Some(q)
    else if StackPage(kernelSize, q) || q == HeapPage(kernelSize) then
      f.Some? && f.value < LOW_PAGES && !Taken(m.bits, f.value) && f.value != d
    else f == None
  }

  lemma DirectoryIs(m: Memory, s: Memory, d: nat, kernelSize: nat)
    requires DirectoryMade(m, s, d, kernelSize)
    ensures Sound(s, d) && kernelSize > 0
    ensures forall q: nat :: q < PAGE_COUNT ==>
             Translate(s, d, q) == if KernelPage(kernelSize, q) then Some(q) else None
    ensures forall p: nat :: p < PAGE_COUNT && !Taken(s.bits, p) ==> !Taken(m.bits, p) && p != d
  {
    var m1 := Memory(Mark(m.bits, d), m.phys);
    InitTranslates(m1, d, kernelSize, 0);
    forall q: nat | q < PAGE_COUNT
      ensures Translate(s, d, q) == if KernelPage(kernelSize, q) then Some(q) else None
    {
      InitTranslates(m1, d, kernelSize, q);
    }
    InitGrew(m1, d, kernelSize);
    forall p: nat | p < PAGE_COUNT && !Taken(s.bits, p)
      ensures !Taken(m.bits, p) && p != d
    {
      TakenMark(m.bits, d, p);
    }
  }

  lemma StackIs(m: Memory, s: Memory, t: Memory, d: nat, kernelSize: nat)
    requires SpaceFits(kernelSize) && StackStart(kernelSize) < WORD && DirectoryMade(m, s, d, kernelSize)
    requires RangeResult(s, t, d, StackStart(kernelSize), STACK_PAGES)
    ensures RangeMapped(s, t, d, StackStart(kernelSize), STACK_PAGES)
    ensures RangeUnmapped(s, d, StackStart(kernelSize), STACK_PAGES)
  {
    DirectoryIs(m, s, d, kernelSize);
    SpaceOrder(kernelSize);
    forall q: nat | q < PAGE_COUNT && InRange(StackStart(kernelSize), STACK_PAGES, q)
      ensures Translate(s, d, q) == None
    {
      StackRange(kernelSize, q);
    }
    RangeMaps(s, t, d, StackStart(kernelSize), STACK_PAGES);
  }

  /** The heap's page is still unmapped when its turn comes. */
  lemma HeapUnmapped(m: Memory, s: Memory, t: Memory, d: nat, kernelSize: nat)
    requires SpaceFits(kernelSize) && StackStart(kernelSize) < WORD && DirectoryMade(m, s, d, kernelSize)
    requires RangeResult(s, t, d, StackStart(kernelSize), STACK_PAGES)
    ensures Sound(t, d) && Translate(t, d, HeapPage(kernelSize)) == None
  {
    StackIs(m, s, t, d, kernelSize);
    DirectoryIs(m, s, d, kernelSize);
    SpaceOrder(kernelSize);
    StackRange(kernelSize, HeapPage(kernelSize));
  }

  /**
   * A new process reaches exactly the kernel's pages, at their own addresses, the 512 pages from
   * the bottom of its stack and its first heap page, the latter in different pages that were free.
   */
  lemma SpaceTranslates(m: Memory, r: Memory, d: nat, kernelSize: nat)
    requires SpaceMade(m, r, d, kernelSize)
    ensures Sound(r, d) && kernelSize > 0 && |m.bits| == BITMAP_SIZE_BYTES
    ensures forall q: nat :: q < PAGE_COUNT ==> NewTranslation(m, Translate(r, d, q), d, kernelSize, q)
    ensures forall q: nat, x: nat :: q < x < PAGE_COUNT && Translate(r, d, q).Some? ==>
             Translate(r, d, q) != Translate(r, d, x)
  {
    var s, t :| SpaceSteps(m, s, t, r, d, kernelSize);
    SpaceOrder(kernelSize);
    DirectoryIs(m, s, d, kernelSize);
    StackIs(m, s, t, d, kernelSize);
    HeapUnmapped(m, s, t, d, kernelSize);
    var f := MapsOne(t, r, d, HeapPage(kernelSize));
    forall q: nat | q < PAGE_COUNT
      ensures NewTranslation(m, Translate(r, d, q), d, kernelSize, q)
    {
      StackRange(kernelSize, q);
    }
    FramesDiffer(r, d);
  }

  lemma FramesDiffer(r: Memory, d: nat)
    requires Sound(r, d)
    ensures forall q: nat, x: nat :: q < x < PAGE_COUNT && Translate(r, d, q).Some? ==>
             Translate(r, d, q) != Translate(r, d, x)
  {
    forall q: nat, x: nat | q < x < PAGE_COUNT && Translate(r, d, q).Some? && Translate(r, d, x).Some?
      ensures Translate(r, d, q) != Translate(r, d, x)
    {
      assert HasLeaf(r, d, q / ENTRIES, q % ENTRIES) && HasLeaf(r, d, x / ENTRIES, x % ENTRIES);
      assert q / ENTRIES != x / ENTRIES || q % ENTRIES != x % ENTRIES;
    }
  }

  /**
   * The mapped part is the bottom of the stack, but the stack pointer starts at the top, 18
   * megabytes above it: no page from the end of the mapped part up to the heap is mapped, so
   * neither is the one the first push writes to.
   */
  lemma FirstPushUnmapped(m: Memory, r: Memory, d: nat, kernelSize: nat)
    requires SpaceMade(m, r, d, kernelSize)
    ensures IsTable(r, d) && SpaceFits(kernelSize)
    ensures forall a: nat :: StackStart(kernelSize) / 4096 + STACK_PAGES <= a / 4096 < HeapPage(kernelSize)
              ==> Translate(r, d, a / 4096) == None
    ensures StackStart(kernelSize) / 4096 + STACK_PAGES <= (StackTop(kernelSize) - 4) / 4096 < HeapPage(kernelSize)
  {
    SpaceTranslates(m, r, d, kernelSize);
    SpaceOrder(kernelSize);
    FirstPushBetween(kernelSize);
    forall a: nat | StackStart(kernelSize) / 4096 + STACK_PAGES <= a / 4096 < HeapPage(kernelSize)
      ensures Translate(r, d, a / 4096) == None
    {
      assert NewTranslation(m, Translate(r, d, a / 4096), d, kernelSize, a / 4096);
      AboveKernel(kernelSize, a / 4096);
    }
  }

  lemma FirstPushBetween(kernelSize: nat)
    requires SpaceFits(kernelSize)
    ensures StackStart(kernelSize) / 4096 + STACK_PAGES <= (StackTop(kernelSize) - 4) / 4096 < HeapPage(kernelSize)
  {
  }

  lemma AboveKernel(kernelSize: nat, q: nat)
    requires SpaceFits(kernelSize) && StackStart(kernelSize) / 4096 <= q < PAGE_COUNT
    ensures !KernelPage(kernelSize, q)
  {
    SpaceOrder(kernelSize);
    KernelBelowHeap(kernelSize);
  }

  // ---------------------------------------------------------------- when it returns

  /** The directory entries a process uses. */
  ghost function SpaceTables(kernelSize: nat): set<nat>
    requires SpaceFits(kernelSize)
  {
    SpaceOrder(kernelSize);
    KernelTables(kernelSize) + StackTables(kernelSize) + {HeapPage(kernelSize) / ENTRIES}
  }

  ghost function StackTables(kernelSize: nat): set<nat> {
    set q: nat | q < PAGE_COUNT && StackPage(kernelSize, q) :: q / ENTRIES
  }

  lemma {:induction false} NewTablesAre(m: Memory, d: nat, va: u32, n: nat, i: nat)
    requires IsTable(m, d)
    ensures i in NewTables(m, d, va, n)
            <==> !HasTable(m, d, i) && exists k: nat :: k < n && PageAt(va, k) / ENTRIES == i
    decreases n
  {
    if n > 0 {
      NewTablesAre(m, d, va, n - 1, i);
      if PageAt(va, n - 1) / ENTRIES == i {
        assert n - 1 < n;
      }
    }
  }

  lemma NewStackTables(s: Memory, d: nat, kernelSize: nat)
    requires SpaceFits(kernelSize) && IsTable(s, d) && StackStart(kernelSize) < WORD
    ensures forall i: nat :: i in NewTables(s, d, StackStart(kernelSize), STACK_PAGES)
              <==> i in StackTables(kernelSize) && !HasTable(s, d, i)
  {
    SpaceOrder(kernelSize);
    var va := StackStart(kernelSize);
    forall i: nat
      ensures i in NewTables(s, d, va, STACK_PAGES) <==> i in StackTables(kernelSize) && !HasTable(s, d, i)
    {
      NewTablesAre(s, d, va, STACK_PAGES, i);
      if k: nat :| k < STACK_PAGES && PageAt(va, k) / ENTRIES == i {
        PageAtIs(va, k);
        assert StackPage(kernelSize, PageAt(va, k));
      }
      if q: nat :| q < PAGE_COUNT && StackPage(kernelSize, q) && q / ENTRIES == i {
        PageAtIs(va, q - va / 4096);
        assert PageAt(va, q - va / 4096) == q;
      }
    }
  }

  /** The directory costs its page and a table for each entry the kernel's pages fall in. */
  lemma DirectoryCosts(m: Memory, s: Memory, d: nat, kernelSize: nat)
    requires DirectoryMade(m, s, d, kernelSize)
    ensures Sound(s, d) && Fitting(kernelSize)
    ensures forall k: nat :: HasTable(s, d, k) <==> k in KernelTables(kernelSize)
    ensures |LowFree(s.bits)| == |LowFree(m.bits)| - 1 - |KernelTables(kernelSize)|
  {
    var m1 := Memory(Mark(m.bits, d), m.phys);
    DirectoryIs(m, s, d, kernelSize);
    InitReturns(m1, d, kernelSize);
    WipedReady(m1, d, kernelSize);
    KernelTablesAre(Wiped(m1, d), d, kernelSize);
    var r, more := IdentitySpends(Wiped(m1, d), d, KernelPages(kernelSize));
    LowFreeMark(m.bits, d);
    assert d in LowFree(m.bits);
  }

  /** After the directory, the stack can be mapped exactly with this many free pages at first. */
  lemma StackReturnsIff(m: Memory, s: Memory, d: nat, kernelSize: nat)
    requires SpaceFits(kernelSize) && StackStart(kernelSize) < WORD && DirectoryMade(m, s, d, kernelSize)
    ensures Sound(s, d)
    ensures var more := NewTables(s, d, StackStart(kernelSize), STACK_PAGES);
            RangeReturns(s, d, StackStart(kernelSize), STACK_PAGES)
            <==> |LowFree(m.bits)| > 1 + |KernelTables(kernelSize)| + STACK_PAGES + |more|
  {
    DirectoryCosts(m, s, d, kernelSize);
    DirectoryIs(m, s, d, kernelSize);
    SpaceOrder(kernelSize);
    forall q: nat | q < PAGE_COUNT && InRange(StackStart(kernelSize), STACK_PAGES, q)
      ensures Translate(s, d, q) == None
    {
      StackRange(kernelSize, q);
    }
    RangeReturnsIff(s, d, StackStart(kernelSize), STACK_PAGES);
  }

  /** And then the heap's page. */
  lemma HeapReturnsIff(m: Memory, s: Memory, t: Memory, d: nat, kernelSize: nat)
    requires SpaceFits(kernelSize) && StackStart(kernelSize) < WORD && DirectoryMade(m, s, d, kernelSize)
    requires RangeResult(s, t, d, StackStart(kernelSize), STACK_PAGES)
    ensures Sound(t, d)
    ensures Mappable(t, d, HeapPage(kernelSize)) <==> |LowFree(m.bits)| > 2 + STACK_PAGES + |SpaceTables(kernelSize)|
  {
    HeapUnmapped(m, s, t, d, kernelSize);
    StackIs(m, s, t, d, kernelSize);
    DirectoryCosts(m, s, d, kernelSize);
    NewStackTables(s, d, kernelSize);
    var va := StackStart(kernelSize);
    var states :| MapLinked(states, d, va, STACK_PAGES) && states[0] == s && states[STACK_PAGES] == t;
    var more := RangeSpends(states, d, va, STACK_PAGES);
    MapCounts(t, d, HeapPage(kernelSize));
    TablesAdd(kernelSize, more);
  }

  lemma TablesAdd(kernelSize: nat, more: set<nat>)
    requires SpaceFits(kernelSize) && Fitting(kernelSize)
    requires forall i: nat :: i in more <==> i in StackTables(kernelSize) && i !in KernelTables(kernelSize)
    ensures var h, both := HeapPage(kernelSize) / ENTRIES, KernelTables(kernelSize) + more;
            && |both| == |KernelTables(kernelSize)| + |more|
            && |SpaceTables(kernelSize)| == |both| + (if h in both then 0 else 1)
  {
    var both := KernelTables(kernelSize) + more;
    assert both == KernelTables(kernelSize) + StackTables(kernelSize);
    assert KernelTables(kernelSize) !! more;
    TablesGrow(both, HeapPage(kernelSize) / ENTRIES);
  }

  /**
   * `process_create` gets all its pages exactly if there are free pages, in the allocator's reach,
   * for the directory, the stack, the heap page and all tables, and one more.
   */
  lemma SpaceReturnsIff(m: Memory, kernelSize: nat)
    requires SpaceFits(kernelSize) && |m.bits| == BITMAP_SIZE_BYTES && KernelTaken(m.bits, kernelSize)
    ensures (exists r, d :: SpaceMade(m, r, d, kernelSize))
            <==> |LowFree(m.bits)| > 2 + STACK_PAGES + |SpaceTables(kernelSize)|
  {
    SpaceOrder(kernelSize);
    if |LowFree(m.bits)| > 2 + STACK_PAGES + |SpaceTables(kernelSize)| {
      var r, d := SpaceBuilt(m, kernelSize);
    }
    if r, d :| SpaceMade(m, r, d, kernelSize) {
      var s, t :| SpaceSteps(m, s, t, r, d, kernelSize);
      HeapReturnsIff(m, s, t, d, kernelSize);
    }
  }

  lemma DirectoryBuilt(m: Memory, kernelSize: nat) returns (s: Memory, d: nat)
    requires Fitting(kernelSize) && |m.bits| == BITMAP_SIZE_BYTES && KernelTaken(m.bits, kernelSize)
    requires |LowFree(m.bits)| > |KernelTables(kernelSize)| + 1
    ensures DirectoryMade(m, s, d, kernelSize)
  {
    LowFreeHas(m.bits);
    d := Lowest(m.bits);
    FreshPageFits(m, d, kernelSize);
    s := InitDirectory(Memory(Mark(m.bits, d), m.phys), d, kernelSize);
  }

  lemma SpaceBuilt(m: Memory, kernelSize: nat) returns (r: Memory, d: nat)
    requires SpaceFits(kernelSize) && |m.bits| == BITMAP_SIZE_BYTES && KernelTaken(m.bits, kernelSize)
    requires |LowFree(m.bits)| > 2 + STACK_PAGES + |SpaceTables(kernelSize)|
    ensures SpaceMade(m, r, d, kernelSize)
  {
    SpaceOrder(kernelSize);
    var s;
    MoreTables(kernelSize);
    s, d := DirectoryBuilt(m, kernelSize);
    StackRoom(m, s, d, kernelSize);
    var va := StackStart(kernelSize);
    var states :| MapLinked(states, d, va, STACK_PAGES) && states[0] == s;
    var t := states[STACK_PAGES];
    HeapReturnsIff(m, s, t, d, kernelSize);
    r := Map(t, d, HeapPage(kernelSize));
    assert SpaceSteps(m, s, t, r, d, kernelSize);
  }

  lemma MoreTables(kernelSize: nat)
    requires SpaceFits(kernelSize) && Fitting(kernelSize)
    ensures |KernelTables(kernelSize)| <= |SpaceTables(kernelSize)|
  {
    SubsetSize(KernelTables(kernelSize), SpaceTables(kernelSize));
  }

  lemma StackRoom(m: Memory, s: Memory, d: nat, kernelSize: nat)
    requires SpaceFits(kernelSize) && StackStart(kernelSize) < WORD && DirectoryMade(m, s, d, kernelSize)
    requires |LowFree(m.bits)| > 2 + STACK_PAGES + |SpaceTables(kernelSize)|
    ensures RangeReturns(s, d, StackStart(kernelSize), STACK_PAGES)
  {
    DirectoryCosts(m, s, d, kernelSize);
    NewStackTables(s, d, kernelSize);
    TablesAdd(kernelSize, NewTables(s, d, StackStart(kernelSize), STACK_PAGES));
    StackReturnsIff(m, s, d, kernelSize);
  }

  // ---------------------------------------------------------------- as a run of space operations

  lemma {:induction false} RunJoins(w: World, a: seq<SpaceOp>, b: seq<SpaceOp>, kernelSize: nat)
    requires CanRun(w, a, kernelSize) && CanRun(Run(w, a, kernelSize), b, kernelSize)
    ensures CanRun(w, a + b, kernelSize) && Run(w, a + b, kernelSize) == Run(Run(w, a, kernelSize), b, kernelSize)
    decreases |a|
  {
    if a == [] {
      assert a + b == b;
    } else {
      HeadAndRest(a, b);
      RunJoins(Step(w, a[0], kernelSize), a[1..], b, kernelSize);
      RunFirst(w, a[0], a[1..] + b, kernelSize);
    }
  }

  lemma HeadAndRest<T>(a: seq<T>, b: seq<T>)
    requires a != []
    ensures a + b == [a[0]] + (a[1..] + b)
  {
  }

  lemma RunFirst(w: World, op: SpaceOp, ops: seq<SpaceOp>, kernelSize: nat)
    requires Possible(w, op, kernelSize) && CanRun(Step(w, op, kernelSize), ops, kernelSize)
    ensures CanRun(w, [op] + ops, kernelSize)
    ensures Run(w, [op] + ops, kernelSize) == Run(Step(w, op, kernelSize), ops, kernelSize)
  {
    assert ([op] + ops)[1..] == ops;
  }

  lemma RunsOn(w: World, ops: seq<SpaceOp>, op: SpaceOp, kernelSize: nat)
    requires CanRun(w, ops, kernelSize) && Possible(Run(w, ops, kernelSize), op, kernelSize)
    ensures CanRun(w, ops + [op], kernelSize)
    ensures Run(w, ops + [op], kernelSize) == Step(Run(w, ops, kernelSize), op, kernelSize)
  {
    assert [op][1..] == [];
    RunJoins(w, ops, [op], kernelSize);
  }

  lemma {:induction false} RangeRuns(w: World, states: seq<Memory>, k: nat, va: u32, n: nat, kernelSize: nat)
    returns (ops: seq<SpaceOp>)
    requires Separate(w, kernelSize) && kernelSize > 0 && k < |w.dirs|
    requires MapLinked(states, w.dirs[k], va, n) && states[0] == w.mem
    requires forall i: nat :: i < n ==> !KernelPage(kernelSize, PageAt(va, i))
    ensures CanRun(w, ops, kernelSize) && Run(w, ops, kernelSize) == World(states[n], w.dirs)
    decreases n
  {
    ops := [];
    if n > 0 {
      assert MapLink(states[n - 1], states[n], w.dirs[k], PageAt(va, n - 1));
      var before := RangeRuns(w, states[..n], k, va, n - 1, kernelSize);
      RunIsolates(w, before, kernelSize);
      MapsNext(World(states[n - 1], w.dirs), k, PageAt(va, n - 1), states[n], kernelSize);
      RunsOn(w, before, MapPage(k, PageAt(va, n - 1)), kernelSize);
      ops := before + [MapPage(k, PageAt(va, n - 1))];
    }
  }

  lemma DirectoryRuns(w: World, s: Memory, d: nat, kernelSize: nat)
    requires Separate(w, kernelSize) && DirectoryMade(w.mem, s, d, kernelSize)
    ensures CanRun(w, [NewSpace], kernelSize) && Run(w, [NewSpace], kernelSize) == World(s, w.dirs + [d])
  {
    LowestIs(w.mem.bits, d);
    LowFreeMark(w.mem.bits, d);
    assert d in LowFree(w.mem.bits);
    assert [NewSpace][1..] == [];
  }

  /**
   * Creating a process is a run of operations that keep all spaces apart, so whatever processes
   * are created and pages mapped, two spaces have nothing but the kernel's pages in common.
   */
  lemma CreationRuns(w: World, r: Memory, d: nat, kernelSize: nat) returns (ops: seq<SpaceOp>)
    requires Separate(w, kernelSize) && SpaceMade(w.mem, r, d, kernelSize)
    ensures CanRun(w, ops, kernelSize) && Run(w, ops, kernelSize) == World(r, w.dirs + [d])
    ensures Separate(World(r, w.dirs + [d]), kernelSize)
  {
    var s, t :| SpaceSteps(w.mem, s, t, r, d, kernelSize);
    DirectoryRuns(w, s, d, kernelSize);
    RunIsolates(w, [NewSpace], kernelSize);
    var rest := PagesRun(World(s, w.dirs + [d]), t, r, d, kernelSize);
    RunJoins(w, [NewSpace], rest, kernelSize);
    ops := [NewSpace] + rest;
    RunIsolates(w, ops, kernelSize);
  }

  /** The stack's pages and the heap's, mapped in the last space. */
  lemma PagesRun(v: World, t: Memory, r: Memory, d: nat, kernelSize: nat) returns (ops: seq<SpaceOp>)
    requires Separate(v, kernelSize) && v.dirs != [] && v.dirs[|v.dirs| - 1] == d
    requires SpaceFits(kernelSize) && StackStart(kernelSize) < WORD
    requires RangeResult(v.mem, t, d, StackStart(kernelSize), STACK_PAGES) && MapLink(t, r, d, HeapPage(kernelSize))
    ensures CanRun(v, ops, kernelSize) && Run(v, ops, kernelSize) == World(r, v.dirs)
  {
    var k := |v.dirs| - 1;
    StackSparesKernel(kernelSize);
    var stack := StackRuns(v, t, d, kernelSize);
    RunIsolates(v, stack, kernelSize);
    MapsNext(World(t, v.dirs), k, HeapPage(kernelSize), r, kernelSize);
    RunsOn(v, stack, MapPage(k, HeapPage(kernelSize)), kernelSize);
    ops := stack + [MapPage(k, HeapPage(kernelSize))];
  }

  lemma MapsNext(w: World, k: nat, vp: nat, r: Memory, kernelSize: nat)
    requires Separate(w, kernelSize) && kernelSize > 0 && k < |w.dirs| && MapLink(w.mem, r, w.dirs[k], vp)
    requires !KernelPage(kernelSize, vp)
    ensures Possible(w, MapPage(k, vp), kernelSize) && Step(w, MapPage(k, vp), kernelSize) == World(r, w.dirs)
  {
  }

  lemma StackRuns(v: World, t: Memory, d: nat, kernelSize: nat) returns (ops: seq<SpaceOp>)
    requires Separate(v, kernelSize) && v.dirs != [] && v.dirs[|v.dirs| - 1] == d
    requires SpaceFits(kernelSize) && StackStart(kernelSize) < WORD
    requires RangeResult(v.mem, t, d, StackStart(kernelSize), STACK_PAGES)
    ensures CanRun(v, ops, kernelSize) && Run(v, ops, kernelSize) == World(t, v.dirs)
  {
    var va := StackStart(kernelSize);
    var states :| MapLinked(states, d, va, STACK_PAGES) && states[0] == v.mem && states[STACK_PAGES] == t;
    StackSparesKernel(kernelSize);
    ops := RangeRuns(v, states, |v.dirs| - 1, va, STACK_PAGES, kernelSize);
  }

  lemma StackSparesKernel(kernelSize: nat)
    requires SpaceFits(kernelSize) && StackStart(kernelSize) < WORD
    ensures forall i: nat :: i < STACK_PAGES ==> !KernelPage(kernelSize, PageAt(StackStart(kernelSize), i))
    ensures !KernelPage(kernelSize, HeapPage(kernelSize))
  {
    SpaceOrder(kernelSize);
    forall i: nat | i < STACK_PAGES
      ensures !KernelPage(kernelSize, PageAt(StackStart(kernelSize), i))
    {
      PageAtIs(StackStart(kernelSize), i);
      StackRange(kernelSize, PageAt(StackStart(kernelSize), i));
    }
  }
}
