/** Which pages a process may reach and write: what mapping, building a directory and creating a process grant. */
module PageRights {
  import opened Words
  import opened PageBits
  import opened PageTables
  import opened PageRanges
  import opened ProcessSpaces

  // ---------------------------------------------------------------- one mapping

  lemma TableRights(m: Memory, d: nat, i: nat)
    requires Sound(m, d) && Open(m, d) && i < ENTRIES && (!HasTable(m, d, i) ==> LowFree(m.bits) != {})
    ensures var a := AddTable(m, d, i);
            && Sound(a, d) && Open(a, d) && HasTable(a, d, i)
            && forall q: nat :: q < PAGE_COUNT ==> RightsOf(a, d, q) == RightsOf(m, d, q)
  {
    AddTableKeeps(m, d, i);
    if !HasTable(m, d, i) {
      var a, t := AddTable(m, d, i), Lowest(m.bits);
      SoundTaken(m, d, t);
      NewTable(m, a, d, i, t);
      forall k | HasTable(a, d, k)
        ensures a.phys[d][k].user && a.phys[d][k].readWrite
        ensures k != i ==> HasTable(m, d, k) && a.phys[d][k] == m.phys[d][k]
        ensures k != i ==> a.phys[TableOf(a, d, k)] == m.phys[TableOf(m, d, k)]
      {
      }
      forall q: nat | q < PAGE_COUNT
        ensures RightsOf(a, d, q) == RightsOf(m, d, q)
      {
        assert HasLeaf(a, d, q / ENTRIES, q % ENTRIES) == HasLeaf(m, d, q / ENTRIES, q % ENTRIES);
      }
    }
  }

  /** One table entry written: the rights of its page are what it says, all others stay. */
  lemma LeafRights(m: Memory, d: nat, vp: nat, bits: seq<bv8>, e: Entry)
    requires Sound(m, d) && Open(m, d) && vp < PAGE_COUNT && HasTable(m, d, vp / ENTRIES)
    requires e.present && |bits| == BITMAP_SIZE_BYTES
    ensures var r := PutLeaf(m, TableOf(m, d, vp / ENTRIES), vp % ENTRIES, bits, e);
            && Open(r, d)
            && forall q: nat :: q < PAGE_COUNT ==>
                 RightsOf(r, d, q) == if q == vp then Some(Rights(e.user, e.readWrite)) else RightsOf(m, d, q)
  {
    var i, j := vp / ENTRIES, vp % ENTRIES;
    var t := TableOf(m, d, i);
    var r := PutLeaf(m, t, j, bits, e);
    PutLeafWith(m, d, i, j, bits, e);
    assert r.phys[d] == m.phys[d];
    forall q: nat | q < PAGE_COUNT
      ensures RightsOf(r, d, q) == if q == vp then Some(Rights(e.user, e.readWrite)) else RightsOf(m, d, q)
    {
      var k, l := q / ENTRIES, q % ENTRIES;
      assert q == vp <==> k == i && l == j;
      if HasTable(m, d, k) && k != i {
        assert TableOf(m, d, k) != t;
      }
    }
  }

  /** paging_map: the page may be used and written by the process, and no other page's rights change. */
  lemma MapGrants(m: Memory, d: nat, vp: nat)
    requires Sound(m, d) && Open(m, d) && vp < PAGE_COUNT && Mappable(m, d, vp)
    ensures var r := Map(m, d, vp);
            && Open(r, d)
            && forall q: nat :: q < PAGE_COUNT ==>
                 RightsOf(r, d, q) == if q == vp then Some(Rights(user := true, write := true)) else RightsOf(m, d, q)
  {
    MapRoom(m, d, vp);
    TableRights(m, d, vp / ENTRIES);
    var a := AddTable(m, d, vp / ENTRIES);
    var t, j := TableOf(a, d, vp / ENTRIES), vp % ENTRIES;
    var r := MapLeaf(a, t, j);
    LeafRights(a, d, vp, r.bits, r.phys[t][j]);
  }

  /** paging_map_identity: exactly the rights asked for. */
  lemma IdentityGrants(m: Memory, d: nat, vp: frame, user: bool, write: bool)
    requires Sound(m, d) && Open(m, d) && (!HasTable(m, d, vp / ENTRIES) ==> LowFree(m.bits) != {})
    ensures var r := MapIdentity(m, d, vp, user, write);
            && Open(r, d)
            && forall q: nat :: q < PAGE_COUNT ==>
                 RightsOf(r, d, q) == if q == vp then Some(Rights(user, write)) else RightsOf(m, d, q)
  {
    TableRights(m, d, vp / ENTRIES);
    var a := AddTable(m, d, vp / ENTRIES);
    var t, j := TableOf(a, d, vp / ENTRIES), vp % ENTRIES;
    LeafRights(a, d, vp, ReleaseLeaf(a, t, j), IdentityLeaf(a, t, j, vp, user, write).phys[t][j]);
  }

  // ---------------------------------------------------------------- a new directory

  /** In r exactly the listed pages are mapped, read-only, for the users listed. */
  ghost predicate ListGranted(r: Memory, d: nat, vs: seq<IdentityPage>) {
    && Open(r, d)
    && (forall k :: 0 <= k < |vs| ==> RightsOf(r, d, vs[k].page) == Some(Rights(vs[k].user, false)))
    && (forall q: nat :: q < PAGE_COUNT && !Lists(vs, q) ==> RightsOf(r, d, q) == None)
  }

  lemma {:induction false} IdentitiesGrant(m: Memory, d: nat, vs: seq<IdentityPage>)
    requires Mappables(m, d, vs) && IdentityAll(m, d, vs).Some? && Open(m, d)
    requires forall q: nat :: q < PAGE_COUNT ==> RightsOf(m, d, q) == None
    ensures ListGranted(IdentityAll(m, d, vs).value, d, vs)
    decreases |vs|
  {
    if vs != [] {
      var v := vs[|vs| - 1];
      FrontMappable(m, d, vs);
      IdentitiesGrant(m, d, vs[..|vs| - 1]);
      var s := IdentityAll(m, d, vs[..|vs| - 1]).value;
      IdentityUnfolds(m, d, vs, s);
      IdentityGrants(s, d, v.page, v.user, false);
      GrantListed(s, IdentityAll(m, d, vs).value, d, vs);
    }
  }

  lemma GrantListed(s: Memory, r: Memory, d: nat, vs: seq<IdentityPage>)
    requires vs != [] && ListGranted(s, d, vs[..|vs| - 1]) && Open(r, d)
    requires forall i, k :: 0 <= i < k < |vs| ==> vs[i].page != vs[k].page
    requires var v := vs[|vs| - 1];
             forall q: nat :: q < PAGE_COUNT ==>
               RightsOf(r, d, q) == if q == v.page then Some(Rights(v.user, false)) else RightsOf(s, d, q)
    ensures ListGranted(r, d, vs)
  {
    ListGrows(vs);
    forall k | 0 <= k < |vs|
      ensures RightsOf(r, d, vs[k].page) == Some(Rights(vs[k].user, false))
    {
      assert k < |vs| - 1 ==> vs[..|vs| - 1][k] == vs[k];
    }
  }

  lemma ListGrows(vs: seq<IdentityPage>)
    requires vs != []
    ensures forall q: int :: Lists(vs, q) <==> Lists(vs[..|vs| - 1], q) || q == vs[|vs| - 1].page
  {
    var front := vs[..|vs| - 1];
    forall q: int
      ensures Lists(vs, q) <==> Lists(front, q) || q == vs[|vs| - 1].page
    {
      if k :| 0 <= k < |front| && front[k].page == q {
        assert vs[k].page == q;
      }
      if k :| 0 <= k < |vs| && vs[k].page == q {
        assert k < |front| ==> front[k].page == q;
      }
    }
  }

  /** The pages of the kernel image. */
  predicate ImagePage(kernelSize: nat, q: nat)
    requires kernelSize > 0
  {
    256 <= q <= 255 + (kernelSize + 4095) / 4096
  }

  /**
   * Rights in a new directory: the image for the kernel only, the kernel's heap and the VGA pages
   * readable by the process too, nothing writable.
   */
  function FirstRights(kernelSize: nat, q: nat): Option<Rights>
    requires kernelSize > 0
  {
    if ImagePage(kernelSize, q) then Some(Rights(user := false, write := false))
    else if KernelPage(kernelSize, q) then Some(Rights(user := true, write := false))
    else None
  }

  lemma ListedRights(kernelSize: nat, k: nat)
    requires Fitting(kernelSize) && k < |KernelPages(kernelSize)|
    ensures var v := KernelPages(kernelSize)[k];
            Some(Rights(v.user, false)) == FirstRights(kernelSize, v.page)
  {
    KernelBelowHeap(kernelSize);
  }

  /** paging_init_directory. */
  lemma InitGrants(m: Memory, d: nat, kernelSize: nat)
    requires CanInit(m, d, kernelSize)
    ensures var r := InitDirectory(m, d, kernelSize);
            && IsTable(r, d) && Open(r, d)
            && forall q: nat :: q < PAGE_COUNT ==> RightsOf(r, d, q) == FirstRights(kernelSize, q)
  {
    InitReturns(m, d, kernelSize);
    WipedReady(m, d, kernelSize);
    var w, vs := Wiped(m, d), KernelPages(kernelSize);
    IdentitiesGrant(w, d, vs);
    forall q: nat | q < PAGE_COUNT
      ensures RightsOf(InitDirectory(m, d, kernelSize), d, q) == FirstRights(kernelSize, q)
    {
      KernelPagesList(kernelSize, q);
      if Lists(vs, q) {
        ListedFirst(InitDirectory(m, d, kernelSize), d, kernelSize, vs, q);
      } else {
        ImageIsKernel(kernelSize, q);
      }
    }
  }

  lemma ListedFirst(r: Memory, d: nat, kernelSize: nat, vs: seq<IdentityPage>, q: nat)
    requires Fitting(kernelSize) && vs == KernelPages(kernelSize)
    requires ListGranted(r, d, vs) && Lists(vs, q) && q < PAGE_COUNT
    ensures RightsOf(r, d, q) == FirstRights(kernelSize, q)
  {
    var k :| 0 <= k < |vs| && vs[k].page == q;
    ListedRights(kernelSize, k);
  }

  lemma ImageIsKernel(kernelSize: nat, q: nat)
    requires kernelSize > 0
    ensures ImagePage(kernelSize, q) ==> KernelPage(kernelSize, q)
  {
  }

  // ---------------------------------------------------------------- a new process

  /** r is m with the n pages from va on open to the process, and no other page's rights changed. */
  ghost predicate RangeGranted(m: Memory, r: Memory, d: nat, va: u32, n: nat) {
    && IsTable(m, d) && IsTable(r, d) && Open(r, d)
    && forall q: nat :: q < PAGE_COUNT ==>
         RightsOf(r, d, q) == if InRange(va, n, q) then Some(Rights(true, true)) else RightsOf(m, d, q)
  }

  lemma {:induction false} RangeGrantsAlong(states: seq<Memory>, d: nat, va: u32, n: nat)
    requires n <= PAGE_COUNT && MapLinked(states, d, va, n) && Sound(states[0], d) && Open(states[0], d)
    ensures RangeGranted(states[0], states[n], d, va, n)
  {
    if n > 0 {
      assert MapLink(states[n - 1], states[n], d, PageAt(va, n - 1));
      RangeGrantsAlong(states[..n], d, va, n - 1);
      GrantNext(states[0], states[n - 1], states[n], d, va, n);
    }
  }

  lemma GrantNext(m: Memory, s: Memory, r: Memory, d: nat, va: u32, n: nat)
    requires 0 < n <= PAGE_COUNT && RangeGranted(m, s, d, va, n - 1) && MapLink(s, r, d, PageAt(va, n - 1))
    ensures RangeGranted(m, r, d, va, n)
  {
    MapGrants(s, d, PageAt(va, n - 1));
    forall q: nat | q < PAGE_COUNT
      ensures RightsOf(r, d, q) == if InRange(va, n, q) then Some(Rights(true, true)) else RightsOf(m, d, q)
    {
      InRangeStep(va, n, q);
    }
  }

  /** paging_map_range: every page of the range may be used and written. */
  lemma RangeGrants(m: Memory, r: Memory, d: nat, va: u32, n: nat)
    requires Sound(m, d) && Open(m, d) && n <= PAGE_COUNT && RangeResult(m, r, d, va, n)
    ensures RangeGranted(m, r, d, va, n)
  {
    var states :| MapLinked(states, d, va, n) && states[0] == m && states[n] == r;
    RangeGrantsAlong(states, d, va, n);
  }

  /**
   * A new process may use and write exactly its stack pages and its heap page; it may read the
   * kernel's heap and the VGA pages, and of the kernel's image it may not even do that.
   */
  lemma SpaceGrants(m: Memory, r: Memory, d: nat, kernelSize: nat, q: nat)
    requires SpaceMade(m, r, d, kernelSize) && q < PAGE_COUNT
    ensures IsTable(r, d) && Open(r, d) && kernelSize > 0
    ensures RightsOf(r, d, q) == if StackPage(kernelSize, q) || q == HeapPage(kernelSize)
                                 then Some(Rights(user := true, write := true)) else FirstRights(kernelSize, q)
  {
    var s, t :| SpaceSteps(m, s, t, r, d, kernelSize);
    SpaceOrder(kernelSize);
    InitGrants(Memory(Mark(m.bits, d), m.phys), d, kernelSize);
    DirectoryIs(m, s, d, kernelSize);
    RangeGrants(s, t, d, StackStart(kernelSize), STACK_PAGES);
    MapGrants(t, d, HeapPage(kernelSize));
    StackRange(kernelSize, q);
  }
}
