/**
 * paging.c as the code runs: the bitmap is changed bit by bit, tables entry by entry. Physical
 * addresses are page numbers, and pages holding entries are read and written directly, as the
 * source arranges by switching paging off.
 */
module PagingMachine {
  import opened Words
  import opened PageBits
  import opened PageTables
  import opened PageRanges
  import opened ProcessSpaces

  class Paging {
    const bitmap: array<bv8>
    var firstFree: nat
    var phys: map<nat, seq<Entry>>

    function State(): Memory
      reads this, bitmap
    {
      Memory(bitmap[..], phys)
    }

    /** All bytes below `first_free` are full, so it is a good place to start looking. */
    ghost predicate Valid()
      reads this, bitmap
    {
      bitmap.Length == BITMAP_SIZE_BYTES && FullBelow(bitmap[..], firstFree)
    }

    /** `paging_init`: page 0, the kernel, its heap and the VGA pages are taken, the rest is free. */
    constructor (kernelSize: nat)
      requires Fitting(kernelSize)
      ensures Valid() && fresh(bitmap)
      ensures forall p: nat :: p < PAGE_COUNT ==> (Taken(bitmap[..], p) <==> p == 0 || KernelPage(kernelSize, p))
    {
      firstFree := 0;
      bitmap := new bv8[BITMAP_SIZE_BYTES](_ => 0);
      phys := map[];
      new;
      KernelBelowHeap(kernelSize);
      assert forall p: nat :: p < PAGE_COUNT ==> !Taken(bitmap[..], p);
      AllocatePage(0);
      AllocateStretch(KERNEL_START, KernelCount(kernelSize));
      AllocateStretch(HeapStart(kernelSize), KERNEL_HEAP_PAGES);
      AllocatePage(VGA_TEXT);
      AllocatePage(VGA_GRAPHICS);
    }

    // -------------------------------------------------------------- the bitmap

    /** `paging_allocate_page`. */
    method AllocatePage(page: nat)
      requires Valid() && page < PAGE_COUNT
      modifies bitmap
      ensures Valid() && bitmap[..] == Mark(old(bitmap[..]), page)
      ensures forall p: nat :: p < PAGE_COUNT ==> (Taken(bitmap[..], p) <==> p == page || Taken(old(bitmap[..]), p))
    {
      var bit := page % 8;
      var index := (page - bit) / 8;
      ghost var bits := bitmap[..];
      IndexIs(page);
      FullStaysFull(bits[index], bit);
      bitmap[index] := SetBit(bitmap[index], bit);
      assert bitmap[..] == Mark(bits, page);
      forall p: nat | p < PAGE_COUNT
        ensures Taken(bitmap[..], p) <==> p == page || Taken(bits, p)
      {
        TakenMark(bits, page, p);
      }
    }

    method AllocateStretch(from: nat, count: nat)
      requires Valid() && from + count <= PAGE_COUNT
      modifies bitmap
      ensures Valid()
      ensures forall p: nat :: p < PAGE_COUNT ==>
               (Taken(bitmap[..], p) <==> from <= p < from + count || Taken(old(bitmap[..]), p))
    {
      var i := 0;
      while i < count
        invariant 0 <= i <= count && Valid()
        invariant forall p: nat :: p < PAGE_COUNT ==>
                   (Taken(bitmap[..], p) <==> from <= p < from + i || Taken(old(bitmap[..]), p))
      {
        AllocatePage(from + i);
        i := i + 1;
      }
    }

    /** `paging_free_page`; the hint moves back if the page lies below it. */
    method FreePage(page: nat)
      requires Valid() && page < PAGE_COUNT
      modifies this`firstFree, bitmap
      ensures Valid() && bitmap[..] == Unmark(old(bitmap[..]), page)
    {
      var bit := page % 8;
      var index := (page - bit) / 8;
      ghost var bits := bitmap[..];
      IndexIs(page);
      UnmarkBelow(bits, firstFree, page);
      if index < firstFree {
        firstFree := index;
      }
      bitmap[index] := ClearBit(bitmap[index], bit);
      assert bitmap[..] == Unmark(bits, page);
    }

    /** The bit loop of `paging_allocate_new_page`: takes the lowest free page of the hinted byte; 8 if it is full. */
    method TakeBit() returns (i: nat)
      requires Valid()
      modifies bitmap
      ensures i <= 8 && (i == 8 ==> old(bitmap[firstFree]) == 0xFF)
      ensures i < 8 ==> IsLowestFree(old(bitmap[..]), 8 * firstFree + i)
      ensures bitmap[..] == if i < 8 then Mark(old(bitmap[..]), 8 * firstFree + i) else old(bitmap[..])
    {
      ghost var bits := bitmap[..];
      i := ClearBitOf(bitmap[firstFree]);
      if i < 8 {
        LowestHere(bits, firstFree, i);
        bitmap[firstFree] := SetBit(bitmap[firstFree], i);
        assert bitmap[..] == Mark(bits, 8 * firstFree + i);
      }
    }

    /** The lowest clear bit of a byte, or 8. */
    method ClearBitOf(b: bv8) returns (i: nat)
      ensures i <= 8 && (i == 8 <==> b == 0xFF)
      ensures i < 8 ==> !Bit(b, i)
      ensures forall j :: 0 <= j < i ==> Bit(b, j)
    {
      FullIff(b);
      i := 0;
      while i < 8 && b & Mask(i) != 0
        invariant 0 <= i <= 8
        invariant forall j :: 0 <= j < i ==> Bit(b, j)
      {
        i := i + 1;
      }
    }

    /** The scan of `paging_allocate_new_page`: the hint moves on to a byte with room. */
    method AdvanceHint(ghost room: nat)
      requires Valid() && firstFree <= room < LOW_BYTES && bitmap[room] != 0xFF
      modifies this`firstFree
      ensures Valid() && bitmap[firstFree] != 0xFF
    {
      while bitmap[firstFree] == 0xFF
        invariant firstFree <= room && FullBelow(bitmap[..], firstFree)
        decreases LOW_BYTES - firstFree
      {
        firstFree := (firstFree + 1) % LOW_BYTES;
      }
    }

    /**
     * `paging_allocate_new_page`: the lowest free page is taken. It needs a second free page in
     * reach, because it does not return before the hint has found a byte with room.
     */
    method AllocateNewPage() returns (page: nat)
      requires Valid() && |LowFree(bitmap[..])| >= 2
      modifies this`firstFree, bitmap
      ensures Valid() && IsLowestFree(old(bitmap[..]), page) && bitmap[..] == Mark(old(bitmap[..]), page)
      decreases bitmap[firstFree] == 0xFF
    {
      ghost var bits := bitmap[..];
      var i := TakeBit();
      var currentByte := firstFree;
      ghost var room := RoomLeft(bits, bitmap[..], currentByte, i);
      AdvanceHint(room);
      if i == 8 {
        page := AllocateNewPage();
      } else {
        page := currentByte * 8 + i;
      }
    }

    // -------------------------------------------------------------- tables

    /** The first part of both mapping functions: a missing table gets a fresh, wiped page. */
    method EnsureTable(d: nat, i: nat)
      requires Valid() && Sound(State(), d) && i < ENTRIES
      requires !HasTable(State(), d, i) ==> |LowFree(bitmap[..])| >= 2
      modifies this, bitmap
      ensures Valid() && State() == AddTable(old(State()), d, i)
    {
      if !phys[d][i].present {
        ghost var m := State();
        var table := AllocateNewPage();
        LowestIs(m.bits, table);
        SoundTaken(m, d, table);
        phys := phys[table := ZeroPage()];
        var e := phys[d][i].(present := true);
        e := e.(readWrite := true);
        e := e.(user := true);
        e := e.(address := table);
        phys := phys[d := phys[d][i := e]];
      }
    }

    /** The page an entry already uses is freed; otherwise the entry becomes present. */
    method ClearEntry(table: nat, j: nat)
      requires Valid() && IsTable(State(), table) && j < ENTRIES
      modifies this, bitmap
      ensures Valid() && IsTable(State(), table)
      ensures bitmap[..] == ReleaseLeaf(old(State()), table, j)
      ensures phys == old(phys)[table := old(phys)[table][j := old(phys)[table][j].(present := true)]]
    {
      if !phys[table][j].present {
        phys := phys[table := phys[table][j := phys[table][j].(present := true)]];
      } else {
        var page := phys[table][j].address;
        FreePage(page);
        assert phys[table] == phys[table][j := phys[table][j].(present := true)];
        assert phys == phys[table := phys[table]];
      }
    }

    /** The second part of `paging_map`: release what the entry uses, then give it a fresh page. */
    method FillEntry(table: nat, j: nat)
      requires Valid() && IsTable(State(), table) && j < ENTRIES && |LowFree(ReleaseLeaf(State(), table, j))| >= 2
      modifies this, bitmap
      ensures Valid() && old(LowFree(ReleaseLeaf(State(), table, j)) != {})
      ensures State() == MapLeaf(old(State()), table, j)
    {
      ghost var ph: map<nat, seq<Entry>> := phys;
      ClearEntry(table, j);
      ghost var bits := bitmap[..];
      var e := phys[table][j].(readWrite := true);
      e := e.(user := true);
      var page := AllocateNewPage();
      LowestIs(bits, page);
      e := e.(address := page);
      phys := phys[table := phys[table][j := e]];
      SetTwice(ph, table, j, ph[table][j].(present := true), Entry(true, true, true, page));
    }

    /** `paging_map` of virtual page vp. */
    method MapPage(d: nat, vp: nat)
      requires Valid() && Sound(State(), d) && vp < PAGE_COUNT && Mappable(State(), d, vp)
      modifies this, bitmap
      ensures Valid() && State() == Map(old(State()), d, vp)
    {
      MapRoom(State(), d, vp);
      EnsureTable(d, vp / ENTRIES);
      FillEntry(phys[d][vp / ENTRIES].address, vp % ENTRIES);
    }

    /** `paging_map_identity` of page vp. */
    method MapIdentityPage(d: nat, vp: frame, user: bool, readWrite: bool)
      requires Valid() && Sound(State(), d)
      requires !HasTable(State(), d, vp / ENTRIES) ==> |LowFree(bitmap[..])| >= 2
      modifies this, bitmap
      ensures Valid() && old(!HasTable(State(), d, vp / ENTRIES) ==> LowFree(bitmap[..]) != {})
      ensures State() == MapIdentity(old(State()), d, vp, user, readWrite)
    {
      var i := vp / ENTRIES;
      var j := vp % ENTRIES;
      if !HasTable(State(), d, i) {
        assert |LowFree(bitmap[..])| > 0;
      }
      AddTableKeeps(State(), d, i);
      EnsureTable(d, i);
      var table := phys[d][i].address;
      ghost var ph: map<nat, seq<Entry>> := phys;
      ClearEntry(table, j);
      var e := phys[table][j].(readWrite := readWrite);
      e := e.(user := user);
      e := e.(address := vp);
      phys := phys[table := phys[table][j := e]];
      SetTwice(ph, table, j, ph[table][j].(present := true), Entry(true, readWrite, user, vp));
    }

    /** The next page of a range: from states[k] to states[k + 1]. */
    method MapStep(d: nat, vp: nat, ghost states: seq<Memory>, ghost k: nat)
      requires Valid() && k + 1 < |states| && State() == states[k] && MapLink(states[k], states[k + 1], d, vp)
      modifies this, bitmap
      ensures Valid() && State() == states[k + 1]
    {
      MapPage(d, vp);
    }

    /** `paging_map_range`. */
    method MapPages(d: nat, virtAddr: u32, size: u32)
      requires Valid() && Sound(State(), d) && RangeReturns(State(), d, virtAddr, PageSpan(size))
      modifies this, bitmap
      ensures Valid() && RangeResult(old(State()), State(), d, virtAddr, PageSpan(size))
    {
      var pageCount := PageSpan(size);
      ghost var states :| MapLinked(states, d, virtAddr, pageCount) && states[0] == State();
      MapLoop(d, virtAddr, pageCount, states);
    }

    /** The loop of `paging_map_range`. */
    method MapLoop(d: nat, virtAddr: u32, pageCount: nat, ghost states: seq<Memory>)
      requires MapLinked(states, d, virtAddr, pageCount) && Valid() && State() == states[0]
      modifies this, bitmap
      ensures Valid() && State() == states[pageCount]
    {
      var i := 0;
      while i < pageCount
        invariant 0 <= i <= pageCount && Valid() && State() == states[i]
      {
        assert MapLink(states[i], states[i + 1], d, PageAt(virtAddr, i));
        MapStep(d, PageAt(virtAddr, i), states, i);
        i := i + 1;
      }
    }

    // -------------------------------------------------------------- directories

    /** The next page mapped onto itself: from states[k] to states[k + 1]. */
    method IdentityStep(d: nat, page: frame, user: bool, ghost states: seq<Memory>, ghost k: nat)
      requires Valid() && k + 1 < |states| && State() == states[k]
      requires IdentityLink(states[k], states[k + 1], d, IdentityPage(page, user))
      modifies this, bitmap
      ensures Valid() && State() == states[k + 1]
    {
      MapIdentityPage(d, page, user, false);
    }

    /** One loop of `paging_init_directory`: count pages from `from` on, states[first] to states[first + count]. */
    method IdentityStretch(d: nat, from: nat, count: nat, user: bool,
                           ghost vs: seq<IdentityPage>, ghost states: seq<Memory>, ghost first: nat)
      requires Linked(states, d, vs)
      requires Valid() && from + count <= PAGE_COUNT && first + count <= |vs| && State() == states[first]
      requires forall k :: first <= k < first + count ==> vs[k] == IdentityPage(from + k - first, user)
      modifies this, bitmap
      ensures Valid() && State() == states[first + count]
    {
      var i := 0;
      while i < count
        invariant 0 <= i <= count && Valid() && State() == states[first + i]
      {
        assert IdentityLink(states[first + i], states[first + i + 1], d, vs[first + i]);
        IdentityStep(d, from + i, user, states, first + i);
        i := i + 1;
      }
    }

    /** `paging_init_directory`. */
    method InitDirectoryPage(d: nat, kernelSize: nat)
      requires Valid() && CanInit(State(), d, kernelSize)
      modifies this, bitmap
      ensures Valid() && State() == InitDirectory(old(State()), d, kernelSize)
    {
      ghost var vs := KernelPages(kernelSize);
      ghost var states := InitStates(State(), d, kernelSize);
      KernelPagesParts(kernelSize);
      phys := phys[d := ZeroPage()];
      MapKernel(d, kernelSize, vs, states);
    }

    /** The first two steps of `process_create`: a fresh page made into a directory. */
    method NewDirectory(kernelSize: nat) returns (d: nat)
      requires Valid() && Fitting(kernelSize) && KernelTaken(bitmap[..], kernelSize)
      requires |LowFree(bitmap[..])| > |KernelTables(kernelSize)| + 1
      modifies this, bitmap
      ensures Valid() && IsLowestFree(old(bitmap[..]), d)
      ensures CanInit(old(State()).(bits := Mark(old(bitmap[..]), d)), d, kernelSize)
      ensures State() == InitDirectory(old(State()).(bits := Mark(old(bitmap[..]), d)), d, kernelSize)
    {
      ghost var m := State();
      d := AllocateNewPage();
      FreshPageFits(m, d, kernelSize);
      InitDirectoryPage(d, kernelSize);
    }

    /** What `process_create` does about memory: the directory, the first part of the stack, the first heap page. */
    method NewProcessSpace(kernelSize: nat) returns (d: nat)
      requires Valid() && SpaceFits(kernelSize) && KernelTaken(bitmap[..], kernelSize)
      requires |LowFree(bitmap[..])| > 2 + STACK_PAGES + |SpaceTables(kernelSize)|
      modifies this, bitmap
      ensures Valid() && SpaceMade(old(State()), State(), d, kernelSize)
    {
      ghost var m := State();
      SpaceOrder(kernelSize);
      MoreTables(kernelSize);
      d := NewDirectory(kernelSize);
      ghost var s := State();
      assert DirectoryMade(m, s, d, kernelSize);
      MapStack(d, kernelSize, m);
      MapFirstHeapPage(d, kernelSize, m, s);
    }

    /** The lowest 512 pages of the stack. */
    method MapStack(d: nat, kernelSize: nat, ghost m: Memory)
      requires Valid() && SpaceFits(kernelSize) && DirectoryMade(m, State(), d, kernelSize)
      requires |LowFree(m.bits)| > 2 + STACK_PAGES + |SpaceTables(kernelSize)|
      modifies this, bitmap
      ensures Valid() && StackStart(kernelSize) < WORD
      ensures RangeResult(old(State()), State(), d, StackStart(kernelSize), STACK_PAGES)
    {
      SpaceOrder(kernelSize);
      StackRoom(m, State(), d, kernelSize);
      DirectoryIs(m, State(), d, kernelSize);
      StackSpan();
      MapPages(d, StackStart(kernelSize), STACK_SIZE);
    }

    /** The first page of the heap, from state s after the directory was made. */
    method MapFirstHeapPage(d: nat, kernelSize: nat, ghost m: Memory, ghost s: Memory)
      requires Valid() && SpaceFits(kernelSize) && DirectoryMade(m, s, d, kernelSize) && StackStart(kernelSize) < WORD
      requires RangeResult(s, State(), d, StackStart(kernelSize), STACK_PAGES)
      requires |LowFree(m.bits)| > 2 + STACK_PAGES + |SpaceTables(kernelSize)|
      modifies this, bitmap
      ensures Valid() && SpaceMade(m, State(), d, kernelSize)
    {
      ghost var t := State();
      HeapReturnsIff(m, s, t, d, kernelSize);
      MapPage(d, HeapPage(kernelSize));
      assert SpaceSteps(m, s, t, State(), d, kernelSize);
    }

    /** The mappings of `paging_init_directory`, in order. */
    method MapKernel(d: nat, kernelSize: nat, ghost vs: seq<IdentityPage>, ghost states: seq<Memory>)
      requires Valid() && Fitting(kernelSize) && Linked(states, d, vs) && State() == states[0]
      requires KernelOrder(kernelSize, vs)
      modifies this, bitmap
      ensures Valid() && State() == states[|vs|]
    {
      var n := KernelCount(kernelSize);
      IdentityStretch(d, KERNEL_START, n, false, vs, states, 0);
      IdentityStretch(d, HeapStart(kernelSize), KERNEL_HEAP_PAGES, true, vs, states, n);
      assert IdentityLink(states[n + KERNEL_HEAP_PAGES], states[n + KERNEL_HEAP_PAGES + 1], d,
                          vs[n + KERNEL_HEAP_PAGES]);
      IdentityStep(d, VGA_TEXT, true, states, n + KERNEL_HEAP_PAGES);
      assert IdentityLink(states[n + KERNEL_HEAP_PAGES + 1], states[n + KERNEL_HEAP_PAGES + 2], d,
                          vs[n + KERNEL_HEAP_PAGES + 1]);
      IdentityStep(d, VGA_GRAPHICS, true, states, n + KERNEL_HEAP_PAGES + 1);
    }

    /** The inner loop of `paging_free_directory`: the leaves of table i, then the table itself. */
    method FreeTable(d: nat, i: nat, ghost m: Memory)
      requires Valid() && Readable(m, d) && HasTable(m, d, i) && phys == m.phys
      modifies this`firstFree, bitmap
      ensures Valid() && Freed(old(bitmap[..]), bitmap[..], TablePages(m, d, i))
    {
      ghost var before := bitmap[..];
      var table := phys[d][i].address;
      var j := 0;
      while j < ENTRIES
        invariant 0 <= j <= ENTRIES && Valid()
        invariant Freed(before, bitmap[..], Leaves(m, d, i, j))
      {
        ghost var bits := bitmap[..];
        if phys[table][j].present {
          FreePage(phys[table][j].address);
          FreedMore(before, bits, Leaves(m, d, i, j), phys[table][j].address);
          assert Leaves(m, d, i, j + 1) == Leaves(m, d, i, j) + {LeafOf(m, d, i, j)};
        } else {
          assert Leaves(m, d, i, j + 1) == Leaves(m, d, i, j);
        }
        j := j + 1;
      }
      FreedMore(before, bitmap[..], Leaves(m, d, i, ENTRIES), table);
      FreePage(table);
    }

    /** `paging_free_directory`. */
    method FreeDirectory(d: nat)
      requires Valid() && Readable(State(), d)
      modifies this`firstFree, bitmap
      ensures Valid() && DirectoryFreed(old(State()), State(), d)
    {
      ghost var m := State();
      var i := 0;
      while i < ENTRIES
        invariant 0 <= i <= ENTRIES && Valid()
        invariant Freed(m.bits, bitmap[..], PagesBelow(m, d, i))
      {
        ghost var bits := bitmap[..];
        if phys[d][i].present {
          FreeTable(d, i, m);
          FreedTwice(m.bits, bits, bitmap[..], PagesBelow(m, d, i), TablePages(m, d, i));
        }
        i := i + 1;
      }
      FreedMore(m.bits, bitmap[..], PagesBelow(m, d, ENTRIES), d);
      FreePage(d);
      DirectoryGone(m, bitmap[..], d);
    }

    /** `paging_get_physical_address`: frame and offset, or 0 where nothing is mapped. */
    method GetPhysicalAddress(d: nat, address: u32) returns (r: nat)
      requires Valid() && Readable(State(), d)
      ensures r == match Translate(State(), d, address / 4096)
                   case Some(f) => f * 4096 + address % 4096
                   case None => 0
    {
      var pdIndex := address / 0x400000;
      var ptIndex := address / 4096 % 1024;
      if !phys[d][pdIndex].present {
        return 0;
      }
      var table := phys[d][pdIndex].address;
      assert HasTable(State(), d, pdIndex);
      if !phys[table][ptIndex].present {
        return 0;
      }
      r := phys[table][ptIndex].address * 4096 + address % 4096;
    }
  }

  // ---------------------------------------------------------------- freeing a directory step by step

  /** Exactly the pages of s were let go between two bitmaps. */
  ghost predicate Freed(before: seq<bv8>, bits: seq<bv8>, s: set<nat>) {
    && |before| == |bits| == BITMAP_SIZE_BYTES
    && forall p: nat :: p < PAGE_COUNT ==> (Taken(bits, p) <==> Taken(before, p) && p !in s)
  }

  /** The pages the first j entries of table i lead to. */
  ghost function Leaves(m: Memory, d: nat, i: nat, j: nat): set<nat>
    requires IsTable(m, d)
  {
    set l: nat | l < j && HasLeaf(m, d, i, l) :: LeafOf(m, d, i, l)
  }

  ghost function TablePages(m: Memory, d: nat, i: nat): set<nat>
    requires IsTable(m, d) && HasTable(m, d, i)
  {
    Leaves(m, d, i, ENTRIES) + {TableOf(m, d, i)}
  }

  /** The pages of the first i tables. */
  ghost function PagesBelow(m: Memory, d: nat, i: nat): set<nat>
    requires IsTable(m, d)
  {
    if i == 0 then {}
    else PagesBelow(m, d, i - 1) + if HasTable(m, d, i - 1) then TablePages(m, d, i - 1) else {}
  }

  lemma {:induction false} PagesBelowAre(m: Memory, d: nat, i: nat, p: nat)
    requires IsTable(m, d)
    ensures p in PagesBelow(m, d, i) <==> exists k: nat :: k < i && HasTable(m, d, k) && p in TablePages(m, d, k)
  {
    if i > 0 {
      PagesBelowAre(m, d, i - 1, p);
      assert HasTable(m, d, i - 1) && p in TablePages(m, d, i - 1) ==> p in PagesBelow(m, d, i);
    }
  }

  lemma FootprintIs(m: Memory, d: nat, p: nat)
    requires Readable(m, d)
    ensures InFootprint(m, d, p) <==> p in PagesBelow(m, d, ENTRIES) + {d}
  {
    PagesBelowAre(m, d, ENTRIES, p);
    if i :| HasTable(m, d, i) && TableOf(m, d, i) == p {
      assert p in TablePages(m, d, i);
    } else if i, j :| HasLeaf(m, d, i, j) && LeafOf(m, d, i, j) == p {
      assert p in TablePages(m, d, i);
    }
  }

  lemma DirectoryGone(m: Memory, bits: seq<bv8>, d: nat)
    requires Readable(m, d) && Freed(m.bits, bits, PagesBelow(m, d, ENTRIES) + {d})
    ensures DirectoryFreed(m, Memory(bits, m.phys), d)
  {
    forall p: nat | p < PAGE_COUNT
      ensures Taken(bits, p) <==> Taken(m.bits, p) && !InFootprint(m, d, p)
    {
      FootprintIs(m, d, p);
    }
  }

  lemma FreedMore(before: seq<bv8>, bits: seq<bv8>, s: set<nat>, p: nat)
    requires Freed(before, bits, s) && p < PAGE_COUNT
    ensures Freed(before, Unmark(bits, p), s + {p})
  {
    forall q: nat | q < PAGE_COUNT
      ensures Taken(Unmark(bits, p), q) <==> p != q && Taken(bits, q)
    {
      TakenUnmark(bits, p, q);
    }
  }

  lemma FreedTwice(before: seq<bv8>, bits: seq<bv8>, after: seq<bv8>, s: set<nat>, t: set<nat>)
    requires Freed(before, bits, s) && Freed(bits, after, t)
    ensures Freed(before, after, s + t)
  {
  }

  // ---------------------------------------------------------------- building a directory step by step

  /** r is s with page v mapped onto itself, and s is fit for that. */
  ghost predicate IdentityLink(s: Memory, r: Memory, d: nat, v: IdentityPage) {
    && Sound(s, d)
    && (!HasTable(s, d, v.page / ENTRIES) ==> LowFree(s.bits) != {} && |LowFree(s.bits)| >= 2)
    && r == MapIdentity(s, d, v.page, v.user, false)
  }

  /** states are the memories a list of identity mappings goes through. */
  ghost predicate Linked(states: seq<Memory>, d: nat, vs: seq<IdentityPage>) {
    |states| == |vs| + 1 && forall k :: 0 <= k < |vs| ==> IdentityLink(states[k], states[k + 1], d, vs[k])
  }

  lemma {:induction false} LinkStates(m: Memory, d: nat, vs: seq<IdentityPage>) returns (states: seq<Memory>)
    requires Mappables(m, d, vs) && IdentityAll(m, d, vs).Some?
    ensures Linked(states, d, vs) && states[0] == m && states[|vs|] == IdentityAll(m, d, vs).value
    decreases |vs|
  {
    if vs == [] {
      states := [m];
    } else {
      var front := vs[..|vs| - 1];
      FrontMappable(m, d, vs);
      var before := LinkStates(m, d, front);
      LastLink(m, d, vs);
      LinkMore(before, d, vs, IdentityAll(m, d, vs).value);
      states := before + [IdentityAll(m, d, vs).value];
    }
  }

  lemma LinkMore(before: seq<Memory>, d: nat, vs: seq<IdentityPage>, r: Memory)
    requires vs != [] && Linked(before, d, vs[..|vs| - 1])
    requires IdentityLink(before[|vs| - 1], r, d, vs[|vs| - 1])
    ensures Linked(before + [r], d, vs)
  {
    var states := before + [r];
    forall k | 0 <= k < |vs|
      ensures IdentityLink(states[k], states[k + 1], d, vs[k])
    {
      if k < |vs| - 1 {
        assert IdentityLink(before[k], before[k + 1], d, vs[..|vs| - 1][k]);
      }
    }
  }

  lemma LastLink(m: Memory, d: nat, vs: seq<IdentityPage>)
    requires Mappables(m, d, vs) && IdentityAll(m, d, vs).Some? && vs != []
    ensures Mappables(m, d, vs[..|vs| - 1]) && IdentityAll(m, d, vs[..|vs| - 1]).Some?
    ensures IdentityLink(IdentityAll(m, d, vs[..|vs| - 1]).value, IdentityAll(m, d, vs).value, d, vs[|vs| - 1])
  {
    FrontMappable(m, d, vs);
  }

  lemma InitStates(m: Memory, d: nat, kernelSize: nat) returns (states: seq<Memory>)
    requires CanInit(m, d, kernelSize)
    ensures var vs := KernelPages(kernelSize);
            Linked(states, d, vs) && states[0] == Wiped(m, d) && states[|vs|] == InitDirectory(m, d, kernelSize)
  {
    InitReturns(m, d, kernelSize);
    states := LinkStates(Wiped(m, d), d, KernelPages(kernelSize));
  }

  /** vs is the kernel image, the kernel heap and the two VGA pages, in that order. */
  ghost predicate KernelOrder(kernelSize: nat, vs: seq<IdentityPage>)
    requires Fitting(kernelSize)
  {
    var n := KernelCount(kernelSize);
    && |vs| == n + KERNEL_HEAP_PAGES + 2 && KERNEL_START + n <= PAGE_COUNT
    && (forall k :: 0 <= k < n ==> vs[k] == IdentityPage(KERNEL_START + k, false))
    && (forall k :: n <= k < n + KERNEL_HEAP_PAGES ==> vs[k] == IdentityPage(HeapStart(kernelSize) + k - n, true))
    && vs[n + KERNEL_HEAP_PAGES] == IdentityPage(VGA_TEXT, true)
    && vs[n + KERNEL_HEAP_PAGES + 1] == IdentityPage(VGA_GRAPHICS, true)
  }

  lemma KernelPagesParts(kernelSize: nat)
    requires Fitting(kernelSize)
    ensures KernelOrder(kernelSize, KernelPages(kernelSize))
  {
    KernelBelowHeap(kernelSize);
  }

  /** Writing an entry twice is writing it once. */
  lemma SetTwice(ph: map<nat, seq<Entry>>, t: nat, j: nat, e: Entry, f: Entry)
    requires t in ph && j < |ph[t]|
    ensures var one := ph[t := ph[t][j := e]];
            one[t := one[t][j := f]] == ph[t := ph[t][j := f]]
  {
    assert ph[t][j := e][j := f] == ph[t][j := f];
  }

  lemma IndexIs(page: nat)
    ensures (page - page % 8) / 8 == page / 8
  {
  }

  /** Moving the hint down to a freed page keeps all bytes below it full. */
  lemma UnmarkBelow(bits: seq<bv8>, firstFree: nat, page: nat)
    requires FullBelow(bits, firstFree) && page < PAGE_COUNT
    ensures FullBelow(Unmark(bits, page), if page / 8 < firstFree then page / 8 else firstFree)
  {
  }

  lemma FullStaysFull(b: bv8, i: nat)
    requires i < 8
    ensures b == 0xFF ==> SetBit(b, i) == 0xFF
  {
  }

  /** The lowest clear bit of the hinted byte is the lowest free page. */
  lemma LowestHere(bits: seq<bv8>, b: nat, i: nat)
    requires FullBelow(bits, b) && i < 8 && !Bit(bits[b], i) && forall j :: 0 <= j < i ==> Bit(bits[b], j)
    ensures IsLowestFree(bits, 8 * b + i)
  {
    forall q | 0 <= q < 8 * b + i
      ensures Taken(bits, q)
    {
      if q < 8 * b {
        FullByte(bits, q / 8);
      }
    }
  }

  /** After the bit loop some byte from the hint on has room. */
  lemma RoomLeft(bits: seq<bv8>, after: seq<bv8>, b: nat, i: nat) returns (room: nat)
    requires FullBelow(bits, b) && i <= 8 && |LowFree(bits)| >= 2
    requires after == if i < 8 then Mark(bits, 8 * b + i) else bits
    requires i < 8 ==> IsLowestFree(bits, 8 * b + i)
    ensures b <= room < LOW_BYTES && after[room] != 0xFF && FullBelow(after, b)
  {
    if i < 8 {
      LowFreeMark(bits, 8 * b + i);
      assert 8 * b + i in LowFree(bits);
    }
    assert |LowFree(after)| >= 1;
    ScanEndsIff(after);
    room :| 0 <= room < LOW_BYTES && after[room] != 0xFF;
  }
}
