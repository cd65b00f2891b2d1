/** Pages: what building a process takes from the allocator, and what freeing its directory gives back. */
module Conservation {
  import opened Words
  import opened PageBits
  import opened PageTables
  import opened PageRanges
  import opened Isolation
  import opened ProcessSpaces

  /** Exactly the pages taken in m, and those of directory d, are taken in r. */
  ghost predicate Accounted(m: Memory, r: Memory, d: nat) {
    && |m.bits| == BITMAP_SIZE_BYTES && Sound(r, d)
    && forall p: nat :: p < PAGE_COUNT ==> (Taken(r.bits, p) <==> Taken(m.bits, p) || InFootprint(r, d, p))
  }

  // ---------------------------------------------------------------- one mapping

  lemma TableFootprint(s: Memory, a: Memory, d: nat, i: nat, t: nat)
    requires WithTable(s, a, d, i, t) && !HasTable(s, d, i)
    ensures forall p: nat :: InFootprint(a, d, p) <==> InFootprint(s, d, p) || p == t
  {
    forall p: nat
      ensures InFootprint(a, d, p) <==> InFootprint(s, d, p) || p == t
    {
      if k :| HasTable(s, d, k) && TableOf(s, d, k) == p {
        assert HasTable(a, d, k) && TableOf(a, d, k) == p;
      }
      if k :| HasTable(a, d, k) && TableOf(a, d, k) == p {
        assert k != i ==> HasTable(s, d, k) && TableOf(s, d, k) == p;
      }
      if k, l :| HasLeaf(s, d, k, l) && LeafOf(s, d, k, l) == p {
        assert HasLeaf(a, d, k, l) && LeafOf(a, d, k, l) == p;
      }
      if k, l :| HasLeaf(a, d, k, l) && LeafOf(a, d, k, l) == p {
        assert HasLeaf(s, d, k, l) && LeafOf(s, d, k, l) == p;
      }
    }
  }

  lemma LeafFootprint(s: Memory, r: Memory, d: nat, i: nat, j: nat, f: nat)
    requires WithLeaf(s, r, d, i, j, f) && !HasLeaf(s, d, i, j)
    ensures forall p: nat :: InFootprint(r, d, p) <==> InFootprint(s, d, p) || p == f
  {
    forall p: nat
      ensures InFootprint(r, d, p) <==> InFootprint(s, d, p) || p == f
    {
      if k :| HasTable(s, d, k) && TableOf(s, d, k) == p {
        assert HasTable(r, d, k) && TableOf(r, d, k) == p;
      }
      if k :| HasTable(r, d, k) && TableOf(r, d, k) == p {
        assert HasTable(s, d, k) && TableOf(s, d, k) == p;
      }
      if k, l :| HasLeaf(s, d, k, l) && LeafOf(s, d, k, l) == p {
        assert HasLeaf(r, d, k, l) && LeafOf(r, d, k, l) == p;
      }
      if k, l :| HasLeaf(r, d, k, l) && LeafOf(r, d, k, l) == p && (k != i || l != j) {
        assert HasLeaf(s, d, k, l) && LeafOf(s, d, k, l) == p;
      }
    }
  }

  lemma TableAccounted(m: Memory, s: Memory, d: nat, i: nat)
    requires Accounted(m, s, d) && i < ENTRIES && (!HasTable(s, d, i) ==> LowFree(s.bits) != {})
    ensures Accounted(m, AddTable(s, d, i), d)
  {
    AddTableKeeps(s, d, i);
    if !HasTable(s, d, i) {
      var a, t := AddTable(s, d, i), Lowest(s.bits);
      SoundTaken(s, d, t);
      NewTable(s, a, d, i, t);
      TableFootprint(s, a, d, i, t);
      forall p: nat | p < PAGE_COUNT
        ensures Taken(a.bits, p) <==> p == t || Taken(s.bits, p)
      {
        TakenMark(s.bits, t, p);
      }
    }
  }

  lemma LeafAccounted(m: Memory, a: Memory, r: Memory, d: nat, i: nat, j: nat, f: nat)
    requires Accounted(m, a, d) && Sound(r, d) && WithLeaf(a, r, d, i, j, f) && !HasLeaf(a, d, i, j) && f < PAGE_COUNT
    requires forall p: nat :: p < PAGE_COUNT ==> (Taken(r.bits, p) <==> p == f || Taken(a.bits, p))
    ensures Accounted(m, r, d)
  {
    LeafFootprint(a, r, d, i, j, f);
  }

  /** paging_map of an unmapped page. */
  lemma MapAccounted(m: Memory, s: Memory, d: nat, vp: nat)
    requires Accounted(m, s, d) && vp < PAGE_COUNT && Mappable(s, d, vp) && Translate(s, d, vp) == None
    ensures Accounted(m, Map(s, d, vp), d)
  {
    var i, j := vp / ENTRIES, vp % ENTRIES;
    MapRoom(s, d, vp);
    AddTableKeeps(s, d, i);
    TableAccounted(m, s, d, i);
    var a, r := AddTable(s, d, i), Map(s, d, vp);
    assert Translate(a, d, vp) == None;
    assert !HasLeaf(a, d, i, j);
    MapLeafKeeps(a, d, i, j);
    var f := Lowest(a.bits);
    forall p: nat | p < PAGE_COUNT
      ensures Taken(r.bits, p) <==> p == f || Taken(a.bits, p)
    {
      TakenMark(a.bits, f, p);
    }
    LeafAccounted(m, a, r, d, i, j, f);
  }

  /** paging_map_identity of an unmapped page that is taken. */
  lemma IdentityAccounted(m: Memory, s: Memory, d: nat, p: frame, user: bool)
    requires Accounted(m, s, d) && Taken(s.bits, p) && Translate(s, d, p) == None && TableFits(s, d, p)
    requires Fits(s, d, p / ENTRIES, p % ENTRIES, p)
    ensures LowFree(s.bits) != {} || HasTable(s, d, p / ENTRIES)
    ensures Accounted(m, MapIdentity(s, d, p, user, false), d)
  {
    var i, j := p / ENTRIES, p % ENTRIES;
    IdentityKeeps(s, d, p, user, false);
    AddTableKeeps(s, d, i);
    TableAccounted(m, s, d, i);
    var a, r := AddTable(s, d, i), MapIdentity(s, d, p, user, false);
    assert Translate(a, d, p) == None;
    assert !HasLeaf(a, d, i, j);
    PutLeafWith(a, d, i, j, a.bits, r.phys[TableOf(a, d, i)][j]);
    LeafAccounted(m, a, r, d, i, j, p);
  }

  // ---------------------------------------------------------------- a whole space

  lemma {:induction false} IdentitiesAccounted(m: Memory, w: Memory, d: nat, vs: seq<IdentityPage>)
    requires Accounted(m, w, d) && Mappables(w, d, vs) && IdentityAll(w, d, vs).Some?
    ensures Accounted(m, IdentityAll(w, d, vs).value, d)
    decreases |vs|
  {
    if vs != [] {
      var v := vs[|vs| - 1];
      FrontMappable(w, d, vs);
      IdentitiesAccounted(m, w, d, vs[..|vs| - 1]);
      var s := IdentityAll(w, d, vs[..|vs| - 1]).value;
      IdentityUnfolds(w, d, vs, s);
      LastFits(w, d, vs);
      IdentityAccounted(m, s, d, v.page, v.user);
    }
  }

  lemma DirectoryAccounted(m: Memory, s: Memory, d: nat, kernelSize: nat)
    requires DirectoryMade(m, s, d, kernelSize)
    ensures Accounted(m, s, d)
  {
    var m1 := Memory(Mark(m.bits, d), m.phys);
    InitReturns(m1, d, kernelSize);
    WipedReady(m1, d, kernelSize);
    var w := Wiped(m1, d);
    forall p: nat | p < PAGE_COUNT
      ensures Taken(w.bits, p) <==> Taken(m.bits, p) || InFootprint(w, d, p)
    {
      TakenMark(m.bits, d, p);
    }
    IdentitiesAccounted(m, w, d, KernelPages(kernelSize));
  }

  lemma {:induction false} RangeAccounted(m: Memory, states: seq<Memory>, d: nat, va: u32, n: nat)
    requires n <= PAGE_COUNT && MapLinked(states, d, va, n) && Accounted(m, states[0], d)
    requires RangeUnmapped(states[0], d, va, n)
    ensures Accounted(m, states[n], d)
  {
    if n > 0 {
      RangeShrinks(states[0], d, va, n);
      assert MapLink(states[n - 1], states[n], d, PageAt(va, n - 1));
      RangeAccounted(m, states[..n], d, va, n - 1);
      RangeMapsAlong(states[..n], d, va, n - 1);
      RangeOutside(states[0], states[n - 1], d, va, n - 1, PageAt(va, n - 1));
      MapAccounted(m, states[n - 1], d, PageAt(va, n - 1));
    }
  }

  lemma SpaceAccounted(m: Memory, r: Memory, d: nat, kernelSize: nat)
    requires SpaceMade(m, r, d, kernelSize)
    ensures Accounted(m, r, d)
  {
    var s, t :| SpaceSteps(m, s, t, r, d, kernelSize);
    var va := StackStart(kernelSize);
    DirectoryAccounted(m, s, d, kernelSize);
    StackIs(m, s, t, d, kernelSize);
    var states :| MapLinked(states, d, va, STACK_PAGES) && states[0] == s && states[STACK_PAGES] == t;
    RangeAccounted(m, states, d, va, STACK_PAGES);
    HeapUnmapped(m, s, t, d, kernelSize);
    MapAccounted(m, t, d, HeapPage(kernelSize));
  }

  /** Of the pages taken before a space was made it uses just the kernel's. */
  lemma OldPagesUsed(m: Memory, r: Memory, d: nat, kernelSize: nat, p: nat)
    requires SpaceMade(m, r, d, kernelSize) && |m.bits| == BITMAP_SIZE_BYTES && kernelSize > 0
    requires KernelTaken(m.bits, kernelSize) && p < PAGE_COUNT && Taken(m.bits, p)
    ensures Readable(r, d) && (InFootprint(r, d, p) <==> KernelPage(kernelSize, p))
  {
    SpaceTranslates(m, r, d, kernelSize);
    if KernelPage(kernelSize, p) {
      FrameInFootprint(r, d, p);
    }
    if InFootprint(r, d, p) {
      FootprintParts(r, d, p);
      StructureFresh(m, r, d, kernelSize);
    }
  }

  /** The pages of a new directory and its tables were free. */
  lemma StructureFresh(m: Memory, r: Memory, d: nat, kernelSize: nat)
    requires SpaceMade(m, r, d, kernelSize)
    ensures |m.bits| == BITMAP_SIZE_BYTES && Sound(r, d)
    ensures forall p: nat :: Structure(r, d, p) ==> p < PAGE_COUNT && !Taken(m.bits, p)
  {
    var s, t :| SpaceSteps(m, s, t, r, d, kernelSize);
    SpaceTranslates(m, r, d, kernelSize);
    var m1 := Memory(Mark(m.bits, d), m.phys);
    InitGrew(m1, d, kernelSize);
    assert forall p: nat :: Structure(Wiped(m1, d), d, p) ==> p == d;
    StackGrew(m, s, t, d, kernelSize);
    HeapUnmapped(m, s, t, d, kernelSize);
    MapGrew(t, d, HeapPage(kernelSize), kernelSize);
    GrewTwice(s, t, r, d);
    GrewTwice(Wiped(m1, d), s, r, d);
    forall p: nat | Structure(r, d, p)
      ensures p < PAGE_COUNT && !Taken(m.bits, p)
    {
      StructureTaken(r, d, p);
      TakenMark(m.bits, d, p);
      assert Taken(m1.bits, p) ==> p == d;
    }
  }

  lemma StackGrew(m: Memory, s: Memory, t: Memory, d: nat, kernelSize: nat)
    requires SpaceFits(kernelSize) && StackStart(kernelSize) < WORD && DirectoryMade(m, s, d, kernelSize)
    requires RangeResult(s, t, d, StackStart(kernelSize), STACK_PAGES)
    ensures Grew(s, t, d)
  {
    StackIs(m, s, t, d, kernelSize);
    var va := StackStart(kernelSize);
    var states :| MapLinked(states, d, va, STACK_PAGES) && states[0] == s && states[STACK_PAGES] == t;
    RangeGrew(states, d, va, STACK_PAGES, kernelSize);
  }

  lemma {:induction false} RangeGrew(states: seq<Memory>, d: nat, va: u32, n: nat, kernelSize: nat)
    requires n <= PAGE_COUNT && MapLinked(states, d, va, n) && Sound(states[0], d) && kernelSize > 0
    requires RangeUnmapped(states[0], d, va, n)
    ensures Grew(states[0], states[n], d)
  {
    if n > 0 {
      RangeShrinks(states[0], d, va, n);
      assert MapLink(states[n - 1], states[n], d, PageAt(va, n - 1));
      RangeGrew(states[..n], d, va, n - 1, kernelSize);
      RangeMapsAlong(states[..n], d, va, n - 1);
      RangeOutside(states[0], states[n - 1], d, va, n - 1, PageAt(va, n - 1));
      MapGrew(states[n - 1], d, PageAt(va, n - 1), kernelSize);
      GrewTwice(states[0], states[n - 1], states[n], d);
    }
  }

  /**
   * Creating a process and freeing its directory leaves every page as it was, the kernel's own
   * excepted, which are all lost: nothing else leaks and nothing else is given away.
   */
  lemma FreeUndoesCreate(m: Memory, r: Memory, f: Memory, d: nat, kernelSize: nat, p: nat)
    requires SpaceMade(m, r, d, kernelSize) && DirectoryFreed(r, f, d) && p < PAGE_COUNT
    requires |m.bits| == BITMAP_SIZE_BYTES && kernelSize > 0 && KernelTaken(m.bits, kernelSize)
    ensures Taken(f.bits, p) <==> Taken(m.bits, p) && !KernelPage(kernelSize, p)
  {
    SpaceAccounted(m, r, d, kernelSize);
    if Taken(m.bits, p) {
      OldPagesUsed(m, r, d, kernelSize, p);
    }
  }
}
