/** Mapping whole ranges, building a directory, and what freeing a directory does. */
module PageRanges {
  import opened Words
  import opened PageBits
  import opened PageTables

  // ---------------------------------------------------------------- what one mapping spends

  /** Mapping an unmapped page takes a page for it, and one for its table if that is missing. */
  lemma MapCounts(m: Memory, d: nat, vp: nat)
    requires Sound(m, d) && vp < PAGE_COUNT && Translate(m, d, vp) == None
    ensures Mappable(m, d, vp) <==> |LowFree(m.bits)| >= if HasTable(m, d, vp / ENTRIES) then 2 else 3
    ensures Mappable(m, d, vp) ==>
              var r := Map(m, d, vp);
              && Sound(r, d)
              && (forall k :: HasTable(r, d, k) <==> HasTable(m, d, k) || k == vp / ENTRIES)
              && |LowFree(r.bits)| == |LowFree(m.bits)| - if HasTable(m, d, vp / ENTRIES) then 1 else 2
  {
    var i, j := vp / ENTRIES, vp % ENTRIES;
    if HasTable(m, d, i) {
      assert !HasLeaf(m, d, i, j);
    }
    if Mappable(m, d, vp) {
      MapRoom(m, d, vp);
      TableCounts(m, d, i);
      var a := AddTable(m, d, i);
      assert Translate(a, d, vp) == None;
      assert !HasLeaf(a, d, i, j);
      MapLeafKeeps(a, d, i, j);
      TakeLowest(a.bits);
    }
  }

  lemma TakeLowest(bits: seq<bv8>)
    requires |bits| == BITMAP_SIZE_BYTES && LowFree(bits) != {}
    ensures |LowFree(Mark(bits, Lowest(bits)))| == |LowFree(bits)| - 1
  {
    LowFreeMark(bits, Lowest(bits));
    assert Lowest(bits) in LowFree(bits);
  }

  lemma TableCounts(m: Memory, d: nat, i: nat)
    requires Sound(m, d) && i < ENTRIES && (!HasTable(m, d, i) ==> LowFree(m.bits) != {})
    ensures var a := AddTable(m, d, i);
            && Sound(a, d)
            && (forall k :: HasTable(a, d, k) <==> HasTable(m, d, k) || k == i)
            && (forall q: nat :: q < PAGE_COUNT ==> Translate(a, d, q) == Translate(m, d, q))
            && |LowFree(a.bits)| == |LowFree(m.bits)| - if HasTable(m, d, i) then 0 else 1
  {
    AddTableKeeps(m, d, i);
    if !HasTable(m, d, i) {
      SoundTaken(m, d, Lowest(m.bits));
      NewTable(m, AddTable(m, d, i), d, i, Lowest(m.bits));
      TakeLowest(m.bits);
    }
  }

  // ---------------------------------------------------------------- paging_map_range

  /** `((size - 1) / 4096) + 1` on unsigned words. */
  function PageSpan(size: u32): nat {
    Wrap(size - 1) / 4096 + 1
  }

  /** Virtual page i pages after the one of address va, with addresses wrapping at 2^32. */
  function PageAt(va: u32, i: nat): (vp: nat)
    ensures vp < PAGE_COUNT
  {
    Wrap(va + i * 4096) / 4096
  }

  /** r is s with virtual page vp mapped, and s has room for that. */
  ghost predicate MapLink(s: Memory, r: Memory, d: nat, vp: nat) {
    Sound(s, d) && vp < PAGE_COUNT && Mappable(s, d, vp) && r == Map(s, d, vp)
  }

  /** states are the memories `paging_map_range` goes through when it maps n pages from va on. */
  ghost predicate MapLinked(states: seq<Memory>, d: nat, va: u32, n: nat) {
    |states| == n + 1 && forall k :: 0 <= k < n ==> MapLink(states[k], states[k + 1], d, PageAt(va, k))
  }

  /** The allocator returns from all the mappings. */
  ghost predicate RangeReturns(m: Memory, d: nat, va: u32, n: nat) {
    exists states :: MapLinked(states, d, va, n) && states[0] == m
  }

  /** And r is what they leave. */
  ghost predicate RangeResult(m: Memory, r: Memory, d: nat, va: u32, n: nat) {
    exists states :: MapLinked(states, d, va, n) && states[0] == m && states[n] == r
  }

  /** How many pages after the page of va virtual page q comes, going round at 2^32. */
  function OffsetOf(va: u32, q: nat): int {
    if q >= va / 4096 then q - va / 4096 else q + PAGE_COUNT - va / 4096
  }

  /** q is one of the n pages from va on. */
  predicate InRange(va: u32, n: nat, q: nat) {
    q < PAGE_COUNT && OffsetOf(va, q) < n
  }

  /** The pages the loop visits are exactly those in range, one after the other. */
  lemma PageAtIs(va: u32, i: nat)
    requires i < PAGE_COUNT
    ensures PageAt(va, i) < PAGE_COUNT && OffsetOf(va, PageAt(va, i)) == i
    ensures forall q: nat :: q < PAGE_COUNT && OffsetOf(va, q) == i ==> q == PageAt(va, i)
  {
    var x := va + i * 4096;
    assert x / 4096 == va / 4096 + i;
    if x < WORD {
      assert Wrap(x) == x;
    } else {
      assert Wrap(x) == x - WORD;
      assert (x - WORD) / 4096 == x / 4096 - PAGE_COUNT;
    }
  }

  /** The only page a mapping lets go is the one that was mapped there before. */
  lemma MapLetsGo(m: Memory, d: nat, vp: nat, p: nat)
    requires Sound(m, d) && vp < PAGE_COUNT && Mappable(m, d, vp) && p < PAGE_COUNT && !Taken(Map(m, d, vp).bits, p)
    ensures !Taken(m.bits, p) || Translate(m, d, vp) == Some(p)
  {
    var i, j := vp / ENTRIES, vp % ENTRIES;
    MapRoom(m, d, vp);
    AddTableKeeps(m, d, i);
    var a := AddTable(m, d, i);
    assert Translate(a, d, vp) == Translate(m, d, vp);
    if !HasTable(m, d, i) {
      TakenMark(m.bits, Lowest(m.bits), p);
    }
    TakenRelease(a, d, i, j, p);
    var bits := ReleaseLeaf(a, TableOf(a, d, i), j);
    TakenMark(bits, Lowest(bits), p);
  }

  /** p was free, or one of the n pages from va on was mapped to it. */
  ghost predicate FromRange(m: Memory, d: nat, va: u32, n: nat, p: nat)
    requires |m.bits| == BITMAP_SIZE_BYTES && IsTable(m, d) && p < PAGE_COUNT
  {
    !Taken(m.bits, p) || exists x: nat :: x < PAGE_COUNT && InRange(va, n, x) && Translate(m, d, x) == Some(p)
  }

  /**
   * r is m with the n pages from va on mapped, to pages that were free or that the old mappings of
   * the range gave back; no other translation moved, and no other page was let go.
   */
  ghost predicate RangeRemapped(m: Memory, r: Memory, d: nat, va: u32, n: nat) {
    && Sound(m, d) && Sound(r, d)
    && (forall q: nat :: q < PAGE_COUNT ==>
          if InRange(va, n, q) then GotFrom(m, d, va, n, Translate(r, d, q))
          else Translate(r, d, q) == Translate(m, d, q))
    && (forall p: nat :: p < PAGE_COUNT && !Taken(r.bits, p) ==> FromRange(m, d, va, n, p))
  }

  ghost predicate GotFrom(m: Memory, d: nat, va: u32, n: nat, f: Option<nat>)
    requires |m.bits| == BITMAP_SIZE_BYTES && IsTable(m, d)
  {
    f.Some? && f.value < LOW_PAGES && FromRange(m, d, va, n, f.value)
  }

  lemma FromLonger(m: Memory, d: nat, va: u32, n: nat, p: nat)
    requires Sound(m, d) && 0 < n <= PAGE_COUNT && p < PAGE_COUNT
    ensures FromRange(m, d, va, n, p)
            <==> FromRange(m, d, va, n - 1, p) || Translate(m, d, PageAt(va, n - 1)) == Some(p)
  {
    var vp := PageAt(va, n - 1);
    InRangeStep(va, n, vp);
    if x: nat :| x < PAGE_COUNT && InRange(va, n - 1, x) && Translate(m, d, x) == Some(p) {
      InRangeStep(va, n, x);
    }
    if x: nat :| x < PAGE_COUNT && InRange(va, n, x) && Translate(m, d, x) == Some(p) {
      InRangeStep(va, n, x);
    }
  }

  lemma RemappedNext(m: Memory, s: Memory, r: Memory, d: nat, va: u32, n: nat)
    requires 0 < n <= PAGE_COUNT && RangeRemapped(m, s, d, va, n - 1) && MapLink(s, r, d, PageAt(va, n - 1))
    ensures RangeRemapped(m, r, d, va, n)
  {
    var vp := PageAt(va, n - 1);
    InRangeStep(va, n, vp);
    var f := MapKeeps(s, d, vp);
    forall p: nat | p < PAGE_COUNT && (!Taken(r.bits, p) || p == f)
      ensures FromRange(m, d, va, n, p)
    {
      FromLonger(m, d, va, n, p);
      if p != f {
        MapLetsGo(s, d, vp, p);
      }
    }
    forall q: nat | q < PAGE_COUNT
      ensures if InRange(va, n, q) then GotFrom(m, d, va, n, Translate(r, d, q))
              else Translate(r, d, q) == Translate(m, d, q)
    {
      InRangeStep(va, n, q);
      if InRange(va, n - 1, q) {
        FromLonger(m, d, va, n, Translate(r, d, q).value);
      }
    }
  }

  lemma {:induction false} RangeRemapsAlong(states: seq<Memory>, d: nat, va: u32, n: nat)
    requires n <= PAGE_COUNT && MapLinked(states, d, va, n) && Sound(states[0], d)
    ensures RangeRemapped(states[0], states[n], d, va, n)
  {
    if n > 0 {
      assert MapLink(states[n - 1], states[n], d, PageAt(va, n - 1));
      RangeRemapsAlong(states[..n], d, va, n - 1);
      RemappedNext(states[0], states[n - 1], states[n], d, va, n);
    }
  }

  /** r is m with n pages from va mapped: each to a frame free in m; nothing else moved, nothing taken let go. */
  ghost predicate RangeMapped(m: Memory, r: Memory, d: nat, va: u32, n: nat) {
    && Sound(m, d) && Sound(r, d)
    && (forall q: nat :: q < PAGE_COUNT && InRange(va, n, q) ==> GotFresh(m, Translate(r, d, q)))
    && (forall q: nat :: q < PAGE_COUNT && !InRange(va, n, q) ==> Translate(r, d, q) == Translate(m, d, q))
    && (forall p: nat :: p < PAGE_COUNT && Taken(m.bits, p) ==> Taken(r.bits, p))
  }

  ghost predicate GotFresh(m: Memory, f: Option<nat>) {
    |m.bits| == BITMAP_SIZE_BYTES && f.Some? && f.value < LOW_PAGES && !Taken(m.bits, f.value)
  }

  lemma InRangeStep(va: u32, n: nat, q: nat)
    requires 0 < n <= PAGE_COUNT && q < PAGE_COUNT
    ensures InRange(va, n, q) <==> InRange(va, n - 1, q) || q == PageAt(va, n - 1)
    ensures !InRange(va, n - 1, PageAt(va, n - 1))
  {
    PageAtIs(va, n - 1);
  }

  /** One page more. */
  lemma RangeGrows(m: Memory, s: Memory, r: Memory, d: nat, va: u32, n: nat, f: nat)
    requires 0 < n <= PAGE_COUNT && RangeMapped(m, s, d, va, n - 1) && Sound(r, d) && PageAt(va, n - 1) < PAGE_COUNT
    requires OneMapped(s, r, d, PageAt(va, n - 1), f)
    ensures RangeMapped(m, r, d, va, n)
  {
    forall q: nat | q < PAGE_COUNT
      ensures if InRange(va, n, q) then GotFresh(m, Translate(r, d, q)) else Translate(r, d, q) == Translate(m, d, q)
    {
      InRangeStep(va, n, q);
    }
  }

  /** None of the n pages from va on is mapped. */
  ghost predicate RangeUnmapped(m: Memory, d: nat, va: u32, n: nat) {
    IsTable(m, d) && forall q: nat :: q < PAGE_COUNT && InRange(va, n, q) ==> Translate(m, d, q) == None
  }

  lemma RangeEmpty(m: Memory, d: nat, va: u32)
    requires Sound(m, d)
    ensures RangeMapped(m, m, d, va, 0)
  {
  }

  lemma RangeShrinks(m: Memory, d: nat, va: u32, n: nat)
    requires 0 < n <= PAGE_COUNT && RangeUnmapped(m, d, va, n)
    ensures RangeUnmapped(m, d, va, n - 1)
    ensures var vp := PageAt(va, n - 1); vp < PAGE_COUNT && Translate(m, d, vp) == None && !InRange(va, n - 1, vp)
  {
    PageAtIs(va, n - 1);
    InRangeStep(va, n, PageAt(va, n - 1));
    forall q: nat | q < PAGE_COUNT && InRange(va, n - 1, q)
      ensures Translate(m, d, q) == None
    {
      InRangeStep(va, n, q);
    }
  }

  lemma RangeOutside(m: Memory, r: Memory, d: nat, va: u32, n: nat, vp: nat)
    requires RangeMapped(m, r, d, va, n) && vp < PAGE_COUNT && !InRange(va, n, vp)
    ensures Translate(r, d, vp) == Translate(m, d, vp)
  {
  }

  /** r is s with vp, unmapped in s, mapped to f, a page free in s. */
  ghost predicate OneMapped(s: Memory, r: Memory, d: nat, vp: nat, f: nat) {
    && Sound(s, d) && Sound(r, d) && f < LOW_PAGES && !Taken(s.bits, f)
    && (forall q: nat :: q < PAGE_COUNT ==> Translate(r, d, q) == if q == vp then Some(f) else Translate(s, d, q))
    && (forall p: nat :: p < PAGE_COUNT && Taken(s.bits, p) ==> Taken(r.bits, p))
  }

  lemma MapsOne(s: Memory, r: Memory, d: nat, vp: nat) returns (f: nat)
    requires MapLink(s, r, d, vp) && Translate(s, d, vp) == None
    ensures OneMapped(s, r, d, vp, f)
  {
    f := MapKeeps(s, d, vp);
    forall p: nat | p < PAGE_COUNT && Taken(s.bits, p)
      ensures Taken(r.bits, p)
    {
      if !Taken(r.bits, p) {
        MapLetsGo(s, d, vp, p);
      }
    }
  }

  lemma MapLinkMore(before: seq<Memory>, d: nat, va: u32, n: nat, r: Memory)
    requires 0 < n && MapLinked(before, d, va, n - 1) && MapLink(before[n - 1], r, d, PageAt(va, n - 1))
    ensures MapLinked(before + [r], d, va, n)
  {
  }

  lemma RangeNext(m: Memory, s: Memory, r: Memory, d: nat, va: u32, n: nat)
    requires 0 < n <= PAGE_COUNT && RangeMapped(m, s, d, va, n - 1) && MapLink(s, r, d, PageAt(va, n - 1))
    requires Translate(m, d, PageAt(va, n - 1)) == None
    ensures RangeMapped(m, r, d, va, n)
  {
    var vp := PageAt(va, n - 1);
    InRangeStep(va, n, vp);
    RangeOutside(m, s, d, va, n - 1, vp);
    var f := MapsOne(s, r, d, vp);
    RangeGrows(m, s, r, d, va, n, f);
  }

  /** i added to a set of directory entries if it has no table. */
  function AndMissing(more: set<nat>, m: Memory, d: nat, i: nat): set<nat>
    requires IsTable(m, d)
  {
    if HasTable(m, d, i) then more else more + {i}
  }

  /** Directory entries without a table that the first n pages fall in. */
  ghost function NewTables(m: Memory, d: nat, va: u32, n: nat): set<nat>
    requires IsTable(m, d)
  {
    if n == 0 then {} else AndMissing(NewTables(m, d, va, n - 1), m, d, PageAt(va, n - 1) / ENTRIES)
  }

  lemma NewTablesStep(m: Memory, d: nat, va: u32, n: nat)
    requires IsTable(m, d) && n > 0
    ensures NewTables(m, d, va, n) == AndMissing(NewTables(m, d, va, n - 1), m, d, PageAt(va, n - 1) / ENTRIES)
  {
  }

  /** s has the tables of m and those in `more`, and `spent` free pages fewer. */
  ghost predicate Spent(m: Memory, s: Memory, d: nat, more: set<nat>, spent: int) {
    && Readable(m, d) && Readable(s, d)
    && (forall k :: HasTable(s, d, k) <==> HasTable(m, d, k) || k in more)
    && |LowFree(s.bits)| == |LowFree(m.bits)| - spent
  }

  lemma SpendsOne(m: Memory, s: Memory, d: nat, vp: nat, more: set<nat>, spent: int)
    requires Sound(s, d) && vp < PAGE_COUNT && Mappable(s, d, vp) && Translate(s, d, vp) == None
    requires Spent(m, s, d, more, spent)
    ensures var next := AndMissing(more, m, d, vp / ENTRIES);
            Spent(m, Map(s, d, vp), d, next, spent + 1 + |next| - |more|)
  {
    MapCounts(s, d, vp);
    TablesGrow(more, vp / ENTRIES);
  }

  lemma {:induction false} RangeMapsAlong(states: seq<Memory>, d: nat, va: u32, n: nat)
    requires n <= PAGE_COUNT && MapLinked(states, d, va, n) && Sound(states[0], d) && RangeUnmapped(states[0], d, va, n)
    ensures RangeMapped(states[0], states[n], d, va, n)
  {
    if n == 0 {
      RangeEmpty(states[0], d, va);
    } else {
      RangeShrinks(states[0], d, va, n);
      assert MapLink(states[n - 1], states[n], d, PageAt(va, n - 1));
      RangeMapsAlong(states[..n], d, va, n - 1);
      RangeNext(states[0], states[n - 1], states[n], d, va, n);
    }
  }

  /** One page more is paid for. */
  lemma SpendsNext(m: Memory, s: Memory, r: Memory, d: nat, va: u32, n: nat, more: set<nat>)
    requires 0 < n && RangeMapped(m, s, d, va, n - 1) && Translate(m, d, PageAt(va, n - 1)) == None
    requires !InRange(va, n - 1, PageAt(va, n - 1)) && MapLink(s, r, d, PageAt(va, n - 1))
    requires Spent(m, s, d, more, n - 1 + |more|)
    ensures var next := AndMissing(more, m, d, PageAt(va, n - 1) / ENTRIES); Spent(m, r, d, next, n + |next|)
  {
    RangeOutside(m, s, d, va, n - 1, PageAt(va, n - 1));
    SpendsOne(m, s, d, PageAt(va, n - 1), more, n - 1 + |more|);
  }

  /** n pages and the missing tables are spent. */
  lemma {:induction false} RangeSpends(states: seq<Memory>, d: nat, va: u32, n: nat) returns (more: set<nat>)
    requires n <= PAGE_COUNT && MapLinked(states, d, va, n) && Sound(states[0], d) && RangeUnmapped(states[0], d, va, n)
    ensures more == NewTables(states[0], d, va, n)
    ensures Spent(states[0], states[n], d, more, n + |more|)
    decreases n
  {
    more := {};
    if n > 0 {
      RangeShrinks(states[0], d, va, n);
      assert MapLink(states[n - 1], states[n], d, PageAt(va, n - 1));
      RangeMapsAlong(states[..n], d, va, n - 1);
      var before := RangeSpends(states[..n], d, va, n - 1);
      NewTablesStep(states[0], d, va, n);
      SpendsNext(states[0], states[n - 1], states[n], d, va, n, before);
      more := AndMissing(before, states[0], d, PageAt(va, n - 1) / ENTRIES);
    }
  }

  /**
   * Mapping a range gives every page of it a frame that was free or that the range itself gave
   * back, and changes no other translation; if none of it was mapped, all its frames were free and
   * no page is let go. (Frames differ because the result is sound.)
   */
  lemma RangeMaps(m: Memory, r: Memory, d: nat, va: u32, n: nat)
    requires Sound(m, d) && n <= PAGE_COUNT && RangeResult(m, r, d, va, n)
    ensures RangeRemapped(m, r, d, va, n)
    ensures RangeUnmapped(m, d, va, n) ==> RangeMapped(m, r, d, va, n)
  {
    var states :| MapLinked(states, d, va, n) && states[0] == m && states[n] == r;
    RangeRemapsAlong(states, d, va, n);
    if RangeUnmapped(m, d, va, n) {
      RangeMapsAlong(states, d, va, n);
    }
  }

  lemma NextCounts(m: Memory, s: Memory, d: nat, vp: nat, more: set<nat>, n: nat)
    requires Sound(s, d) && vp < PAGE_COUNT && Translate(s, d, vp) == None && Spent(m, s, d, more, n - 1 + |more|)
    ensures Mappable(s, d, vp) <==> |LowFree(m.bits)| > n + |AndMissing(more, m, d, vp / ENTRIES)|
  {
    MapCounts(s, d, vp);
    TablesGrow(more, vp / ENTRIES);
  }

  /** After the first n - 1 pages the next can be mapped exactly if this many pages were free at first. */
  lemma NextReturnsIff(states: seq<Memory>, d: nat, va: u32, n: nat)
    requires 0 < n <= PAGE_COUNT && MapLinked(states, d, va, n - 1) && Sound(states[0], d)
    requires RangeUnmapped(states[0], d, va, n)
    ensures Sound(states[n - 1], d)
    ensures Mappable(states[n - 1], d, PageAt(va, n - 1))
            <==> |LowFree(states[0].bits)| > n + |NewTables(states[0], d, va, n)|
  {
    RangeShrinks(states[0], d, va, n);
    RangeMapsAlong(states, d, va, n - 1);
    var more := RangeSpends(states, d, va, n - 1);
    NewTablesStep(states[0], d, va, n);
    NextOutside(states[0], states[n - 1], d, va, n, more);
  }

  lemma NextOutside(m: Memory, s: Memory, d: nat, va: u32, n: nat, more: set<nat>)
    requires 0 < n && RangeMapped(m, s, d, va, n - 1) && Translate(m, d, PageAt(va, n - 1)) == None
    requires !InRange(va, n - 1, PageAt(va, n - 1)) && Spent(m, s, d, more, n - 1 + |more|)
    ensures Mappable(s, d, PageAt(va, n - 1))
            <==> |LowFree(m.bits)| > n + |AndMissing(more, m, d, PageAt(va, n - 1) / ENTRIES)|
  {
    RangeOutside(m, s, d, va, n - 1, PageAt(va, n - 1));
    NextCounts(m, s, d, PageAt(va, n - 1), more, n);
  }

  lemma {:induction false} RangeBuilt(m: Memory, d: nat, va: u32, n: nat) returns (states: seq<Memory>)
    requires Sound(m, d) && n <= PAGE_COUNT && RangeUnmapped(m, d, va, n)
    requires n == 0 || |LowFree(m.bits)| > n + |NewTables(m, d, va, n)|
    ensures MapLinked(states, d, va, n) && states[0] == m
    decreases n
  {
    states := [m];
    if n > 0 {
      RangeShrinks(m, d, va, n);
      NewTablesStep(m, d, va, n);
      TablesGrow(NewTables(m, d, va, n - 1), PageAt(va, n - 1) / ENTRIES);
      var before := RangeBuilt(m, d, va, n - 1);
      NextReturnsIff(before, d, va, n);
      var r := Map(before[n - 1], d, PageAt(va, n - 1));
      MapLinkMore(before, d, va, n, r);
      states := before + [r];
    }
  }

  lemma RangeNeeds(states: seq<Memory>, d: nat, va: u32, n: nat)
    requires 0 < n <= PAGE_COUNT && MapLinked(states, d, va, n) && Sound(states[0], d)
    requires RangeUnmapped(states[0], d, va, n)
    ensures |LowFree(states[0].bits)| > n + |NewTables(states[0], d, va, n)|
  {
    assert MapLink(states[n - 1], states[n], d, PageAt(va, n - 1));
    NextReturnsIff(states[..n], d, va, n);
  }

  /**
   * A range of unmapped pages can be mapped exactly if there are free pages, in the allocator's
   * reach, for the pages and for the tables missing among them, and one more.
   */
  lemma RangeReturnsIff(m: Memory, d: nat, va: u32, n: nat)
    requires Sound(m, d) && n <= PAGE_COUNT && RangeUnmapped(m, d, va, n)
    ensures RangeReturns(m, d, va, n) <==> n == 0 || |LowFree(m.bits)| > n + |NewTables(m, d, va, n)|
  {
    if n == 0 || |LowFree(m.bits)| > n + |NewTables(m, d, va, n)| {
      var states := RangeBuilt(m, d, va, n);
    } else if RangeReturns(m, d, va, n) {
      var states :| MapLinked(states, d, va, n) && states[0] == m;
      RangeNeeds(states, d, va, n);
    }
  }

  lemma TablesGrow(s: set<nat>, i: nat)
    ensures |s + {i}| == |s| + (if i in s then 0 else 1)
  {
    if i in s {
      assert s + {i} == s;
    }
  }

  /**
   * Every byte asked for is covered exactly when offset and size fit the pages counted; an aligned
   * start always does.
   */
  lemma RangeCoversIff(va: u32, size: u32)
    requires size > 0 && va + size <= WORD
    ensures (forall b: nat :: va <= b < va + size ==> InRange(va, PageSpan(size), b / 4096))
            <==> va % 4096 + size <= PageSpan(size) * 4096
    ensures va % 4096 == 0 ==> va % 4096 + size <= PageSpan(size) * 4096
  {
    var n := PageSpan(size);
    assert Wrap(size - 1) == size - 1;
    var last := va + size - 1;
    assert va <= last < va + size;
    if va % 4096 + size > n * 4096 {
      assert OffsetOf(va, last / 4096) == last / 4096 - va / 4096 >= n;
      assert !InRange(va, n, last / 4096);
    }
  }

  /** Whole pages asked for from inside a page: the last byte is missed. */
  lemma RangeMissesLast(va: u32, count: nat)
    requires va % 4096 != 0 && 0 < count && va + count * 4096 <= WORD
    ensures PageSpan(count * 4096) == count
    ensures !InRange(va, PageSpan(count * 4096), (va + count * 4096 - 1) / 4096)
  {
    assert Wrap(count * 4096 - 1) == count * 4096 - 1;
    assert (va + count * 4096 - 1) / 4096 == va / 4096 + count;
  }

  // ---------------------------------------------------------------- paging_init_directory

  /** A page to map onto itself, and whether user code may read it; none of them may be written. */
  datatype IdentityPage = IdentityPage(page: frame, user: bool)

  ghost predicate Lists(vs: seq<IdentityPage>, q: int) {
    exists i :: 0 <= i < |vs| && vs[i].page == q
  }

  /** Pages fit to be mapped onto themselves: taken, different, and no part of the directory. */
  ghost predicate Mappables(m: Memory, d: nat, vs: seq<IdentityPage>) {
    && Sound(m, d)
    && (forall i :: 0 <= i < |vs| ==> Fits(m, d, vs[i].page / ENTRIES, vs[i].page % ENTRIES, vs[i].page)
                                      && Taken(m.bits, vs[i].page) && Translate(m, d, vs[i].page) == None)
    && (forall i, k :: 0 <= i < k < |vs| ==> vs[i].page != vs[k].page)
  }

  /** The allocator returns if a table has to be added. */
  ghost predicate TableFits(m: Memory, d: nat, p: frame)
    requires |m.bits| == BITMAP_SIZE_BYTES && IsTable(m, d)
  {
    HasTable(m, d, p / ENTRIES) || |LowFree(m.bits)| >= 2
  }

  /** The identity mappings one after the other; None if the allocator does not return from one of them. */
  ghost function IdentityAll(m: Memory, d: nat, vs: seq<IdentityPage>): (r: Option<Memory>)
    requires Mappables(m, d, vs)
    ensures r.Some? ==> IdentityDone(m, r.value, d, vs)
    decreases |vs|
  {
    if vs == [] then Some(m)
    else
      var front, v := vs[..|vs| - 1], vs[|vs| - 1];
      FrontMappable(m, d, vs);
      match IdentityAll(m, d, front)
      case None => None
      case Some(s) =>
        if TableFits(s, d, v.page) then
          IdentityNext(m, s, d, vs);
          Some(MapIdentity(s, d, v.page, v.user, false))
        else None
  }

  lemma FrontMappable(m: Memory, d: nat, vs: seq<IdentityPage>)
    requires Mappables(m, d, vs) && vs != []
    ensures Mappables(m, d, vs[..|vs| - 1])
  {
  }

  /** r is m with the listed pages translated to themselves; no page let go, and only fresh pages made tables. */
  ghost predicate IdentityDone(m: Memory, r: Memory, d: nat, vs: seq<IdentityPage>) {
    && Sound(m, d) && Sound(r, d)
    && (forall q: nat :: q < PAGE_COUNT ==> Translate(r, d, q) == if Lists(vs, q) then Some(q) else Translate(m, d, q))
    && (forall p: nat :: p < PAGE_COUNT && Taken(m.bits, p) ==> Taken(r.bits, p))
    && (forall p: nat :: p < PAGE_COUNT && Taken(m.bits, p) && NoTable(m, d, p) ==> NoTable(r, d, p))
  }

  ghost predicate NoTable(m: Memory, d: nat, p: nat)
    requires IsTable(m, d)
  {
    forall k :: HasTable(m, d, k) ==> TableOf(m, d, k) != p
  }

  /** r is s with page p, unmapped and taken, mapped onto itself. */
  ghost predicate OneIdentity(s: Memory, r: Memory, d: nat, p: nat) {
    && Sound(s, d) && Sound(r, d)
    && (forall q: nat :: q < PAGE_COUNT ==> Translate(r, d, q) == if q == p then Some(p) else Translate(s, d, q))
    && (forall x: nat :: x < PAGE_COUNT && Taken(s.bits, x) ==> Taken(r.bits, x))
    && (forall x: nat :: x < PAGE_COUNT && Taken(s.bits, x) && NoTable(s, d, x) ==> NoTable(r, d, x))
  }

  /** `paging_map_identity` of a taken page outside the directory, not yet mapped there. */
  lemma IdentityKeeps(s: Memory, d: nat, p: frame, user: bool, readWrite: bool)
    requires Sound(s, d) && Taken(s.bits, p) && Translate(s, d, p) == None && TableFits(s, d, p)
    requires Fits(s, d, p / ENTRIES, p % ENTRIES, p)
    ensures LowFree(s.bits) != {} || HasTable(s, d, p / ENTRIES)
    ensures OneIdentity(s, MapIdentity(s, d, p, user, readWrite), d, p)
  {
    var i, j := p / ENTRIES, p % ENTRIES;
    AddTableKeeps(s, d, i);
    var a := AddTable(s, d, i);
    var t := TableOf(a, d, i);
    FitsWithTable(s, a, d, i, j, p);
    assert Translate(a, d, p) == None;
    assert !HasLeaf(a, d, i, j);
    var r := MapIdentity(s, d, p, user, readWrite);
    PutLeafWith(a, d, i, j, a.bits, Entry(true, readWrite, user, p));
    LeafSound(a, r, d, i, j, p);
    forall q: nat | q < PAGE_COUNT
      ensures Translate(r, d, q) == if q == p then Some(p) else Translate(s, d, q)
    {
      LeafTranslates(a, r, d, p, p, q);
    }
    forall x: nat | x < PAGE_COUNT && Taken(s.bits, x)
      ensures Taken(r.bits, x) && (NoTable(s, d, x) ==> NoTable(r, d, x))
    {
      TableNotTaken(s, a, d, i, x);
    }
  }

  /**
   * `paging_map_identity` of any page: the directory stays sound exactly if the page is taken, is
   * no other page of the directory, and is not mapped onto itself already, because then the
   * mapping frees the very page it maps.
   */
  lemma IdentitySoundIff(s: Memory, d: nat, p: frame, user: bool, readWrite: bool)
    requires Sound(s, d) && (!HasTable(s, d, p / ENTRIES) ==> LowFree(s.bits) != {})
    ensures Sound(MapIdentity(s, d, p, user, readWrite), d)
            <==> Taken(s.bits, p) && Fits(s, d, p / ENTRIES, p % ENTRIES, p) && Translate(s, d, p) != Some(p)
    ensures Sound(MapIdentity(s, d, p, user, readWrite), d)
            ==> forall q: nat :: q < PAGE_COUNT ==>
                  Translate(MapIdentity(s, d, p, user, readWrite), d, q)
                  == if q == p then Some(p) else Translate(s, d, q)
  {
    var i, j := p / ENTRIES, p % ENTRIES;
    AddTableKeeps(s, d, i);
    var a := AddTable(s, d, i);
    var t := TableOf(a, d, i);
    var r := MapIdentity(s, d, p, user, readWrite);
    PutLeafWith(a, d, i, j, ReleaseLeaf(a, t, j), Entry(true, readWrite, user, p));
    forall q: nat | q < PAGE_COUNT
      ensures Translate(r, d, q) == if q == p then Some(p) else Translate(s, d, q)
    {
      LeafTranslates(a, r, d, p, p, q);
    }
    if Taken(s.bits, p) && Fits(s, d, i, j, p) && Translate(s, d, p) != Some(p) {
      FitsWithTable(s, a, d, i, j, p);
      IdentityLeafSound(a, r, d, i, j, p);
    }
    if Sound(r, d) {
      TakenRelease(a, d, i, j, p);
      IdentityWasFit(s, a, r, d, i, j, p);
    }
  }

  lemma IdentityLeafSound(a: Memory, r: Memory, d: nat, i: nat, j: nat, p: nat)
    requires Sound(a, d) && HasTable(a, d, i) && j < ENTRIES && WithLeaf(a, r, d, i, j, p) && Fits(a, d, i, j, p)
    requires Taken(a.bits, p)
    requires r.bits == ReleaseLeaf(a, TableOf(a, d, i), j) && !(HasLeaf(a, d, i, j) && LeafOf(a, d, i, j) == p)
    ensures Sound(r, d)
  {
    forall x: nat | x < PAGE_COUNT
      ensures Taken(r.bits, x) <==> Taken(a.bits, x) && !(HasLeaf(a, d, i, j) && x == LeafOf(a, d, i, j))
    {
      TakenRelease(a, d, i, j, x);
    }
    LeafSound(a, r, d, i, j, p);
  }

  lemma IdentityWasFit(s: Memory, a: Memory, r: Memory, d: nat, i: nat, j: nat, p: nat)
    requires Sound(s, d) && i < ENTRIES && j < ENTRIES && p < PAGE_COUNT
    requires !HasTable(s, d, i) ==> LowFree(s.bits) != {}
    requires a == AddTable(s, d, i) && Sound(a, d) && HasTable(a, d, i) && Taken(a.bits, p)
    requires WithLeaf(a, r, d, i, j, p) && Sound(r, d)
    ensures Taken(s.bits, p) && Fits(s, d, i, j, p)
  {
    assert HasTable(r, d, i) && HasLeaf(r, d, i, j) && LeafOf(r, d, i, j) == p;
    assert Fits(a, d, i, j, p);
    if !HasTable(s, d, i) {
      var t := Lowest(s.bits);
      TakenMark(s.bits, t, p);
      SoundTaken(s, d, t);
      NewTable(s, a, d, i, t);
    }
  }

  lemma TableNotTaken(s: Memory, a: Memory, d: nat, i: nat, x: nat)
    requires Sound(s, d) && i < ENTRIES && x < PAGE_COUNT && Taken(s.bits, x)
    requires !HasTable(s, d, i) ==> LowFree(s.bits) != {}
    requires a == AddTable(s, d, i)
    ensures Taken(a.bits, x) && (NoTable(s, d, x) ==> NoTable(a, d, x))
  {
    if !HasTable(s, d, i) {
      var t := Lowest(s.bits);
      TakenMark(s.bits, t, x);
      SoundTaken(s, d, t);
      NewTable(s, a, d, i, t);
    }
  }

  lemma FitsWithTable(s: Memory, a: Memory, d: nat, i: nat, j: nat, p: nat)
    requires Sound(s, d) && i < ENTRIES && (!HasTable(s, d, i) ==> LowFree(s.bits) != {})
    requires a == AddTable(s, d, i) && Fits(s, d, i, j, p) && Taken(s.bits, p)
    ensures Fits(a, d, i, j, p) && Taken(a.bits, p)
  {
    if !HasTable(s, d, i) {
      var t := Lowest(s.bits);
      TakenMark(s.bits, t, p);
      SoundTaken(s, d, t);
      NewTable(s, a, d, i, t);
    }
  }

  /** The last page of the list can be mapped after the others, and completes the list. */
  lemma IdentityNext(m: Memory, s: Memory, d: nat, vs: seq<IdentityPage>)
    requires Mappables(m, d, vs) && vs != [] && IdentityDone(m, s, d, vs[..|vs| - 1])
    requires TableFits(s, d, vs[|vs| - 1].page)
    ensures LowFree(s.bits) != {} || HasTable(s, d, vs[|vs| - 1].page / ENTRIES)
    ensures var v := vs[|vs| - 1]; IdentityDone(m, MapIdentity(s, d, v.page, v.user, false), d, vs)
  {
    var front, v := vs[..|vs| - 1], vs[|vs| - 1];
    var p := v.page;
    NotInFront(vs);
    StillFits(m, s, d, front, p);
    IdentityKeeps(s, d, p, v.user, false);
    IdentityGrows(m, s, MapIdentity(s, d, p, v.user, false), d, vs);
  }

  lemma NotInFront(vs: seq<IdentityPage>)
    requires vs != [] && forall i, k :: 0 <= i < k < |vs| ==> vs[i].page != vs[k].page
    ensures !Lists(vs[..|vs| - 1], vs[|vs| - 1].page)
    ensures forall q :: Lists(vs, q) <==> Lists(vs[..|vs| - 1], q) || q == vs[|vs| - 1].page
  {
    forall q
      ensures Lists(vs, q) <==> Lists(vs[..|vs| - 1], q) || q == vs[|vs| - 1].page
    {
      if Lists(vs, q) {
        var i :| 0 <= i < |vs| && vs[i].page == q;
        assert i < |vs| - 1 ==> vs[..|vs| - 1][i].page == q;
      }
      if Lists(vs[..|vs| - 1], q) {
        var i :| 0 <= i < |vs| - 1 && vs[..|vs| - 1][i].page == q;
        assert vs[i].page == q;
      }
      assert q == vs[|vs| - 1].page ==> Lists(vs, q);
    }
  }

  /** After the others were mapped, p is still no page of the directory: leaves lead to themselves or to old frames. */
  lemma StillFits(m: Memory, s: Memory, d: nat, front: seq<IdentityPage>, p: frame)
    requires IdentityDone(m, s, d, front) && !Lists(front, p) && Taken(m.bits, p)
    requires Fits(m, d, p / ENTRIES, p % ENTRIES, p) && Translate(m, d, p) == None
    ensures Fits(s, d, p / ENTRIES, p % ENTRIES, p) && Translate(s, d, p) == None && Taken(s.bits, p)
  {
    forall k, l | HasLeaf(s, d, k, l)
      ensures LeafOf(s, d, k, l) != p
    {
      var q := k * ENTRIES + l;
      assert q / ENTRIES == k && q % ENTRIES == l;
      assert Translate(s, d, q) == Some(LeafOf(s, d, k, l));
    }
  }

  lemma IdentityGrows(m: Memory, s: Memory, r: Memory, d: nat, vs: seq<IdentityPage>)
    requires vs != [] && IdentityDone(m, s, d, vs[..|vs| - 1]) && OneIdentity(s, r, d, vs[|vs| - 1].page)
    requires forall q :: Lists(vs, q) <==> Lists(vs[..|vs| - 1], q) || q == vs[|vs| - 1].page
    ensures IdentityDone(m, r, d, vs)
  {
  }

  /** Directory entries without a table that the listed pages fall in. */
  ghost function TablesFor(m: Memory, d: nat, vs: seq<IdentityPage>): set<nat>
    requires IsTable(m, d)
  {
    if vs == [] then {} else AndMissing(TablesFor(m, d, vs[..|vs| - 1]), m, d, vs[|vs| - 1].page / ENTRIES)
  }

  lemma IdentityCounts(s: Memory, d: nat, p: frame, user: bool)
    requires Sound(s, d) && Taken(s.bits, p) && Translate(s, d, p) == None && TableFits(s, d, p)
    requires Fits(s, d, p / ENTRIES, p % ENTRIES, p)
    ensures LowFree(s.bits) != {} || HasTable(s, d, p / ENTRIES)
    ensures var r := MapIdentity(s, d, p, user, false);
            && Readable(r, d)
            && (forall k :: HasTable(r, d, k) <==> HasTable(s, d, k) || k == p / ENTRIES)
            && |LowFree(r.bits)| == |LowFree(s.bits)| - if HasTable(s, d, p / ENTRIES) then 0 else 1
  {
    IdentityKeeps(s, d, p, user, false);
    TableCounts(s, d, p / ENTRIES);
    var a := AddTable(s, d, p / ENTRIES);
    assert Translate(a, d, p) == None;
    assert !HasLeaf(a, d, p / ENTRIES, p % ENTRIES);
    PutLeafWith(a, d, p / ENTRIES, p % ENTRIES, a.bits, Entry(true, false, user, p));
  }

  /** The last page of the list, once the others are mapped. */
  lemma LastFits(m: Memory, d: nat, vs: seq<IdentityPage>)
    requires Mappables(m, d, vs) && vs != [] && Mappables(m, d, vs[..|vs| - 1])
    requires IdentityAll(m, d, vs[..|vs| - 1]).Some?
    ensures var s, p := IdentityAll(m, d, vs[..|vs| - 1]).value, vs[|vs| - 1].page;
            Fits(s, d, p / ENTRIES, p % ENTRIES, p) && Translate(s, d, p) == None && Taken(s.bits, p)
  {
    NotInFront(vs);
    StillFits(m, IdentityAll(m, d, vs[..|vs| - 1]).value, d, vs[..|vs| - 1], vs[|vs| - 1].page);
  }

  lemma {:induction false} IdentitySpends(m: Memory, d: nat, vs: seq<IdentityPage>) returns (r: Memory, more: set<nat>)
    requires Mappables(m, d, vs) && IdentityAll(m, d, vs).Some?
    ensures r == IdentityAll(m, d, vs).value && more == TablesFor(m, d, vs)
    ensures Spent(m, r, d, more, |more|)
    decreases |vs|
  {
    r, more := m, {};
    if vs != [] {
      var front, v := vs[..|vs| - 1], vs[|vs| - 1];
      FrontMappable(m, d, vs);
      var s, before := IdentitySpends(m, d, front);
      LastFits(m, d, vs);
      r := MapIdentity(s, d, v.page, v.user, false);
      IdentityUnfolds(m, d, vs, s);
      more := AndMissing(before, m, d, v.page / ENTRIES);
      IdentitySpendsOne(m, s, d, v, before);
    }
  }

  lemma IdentityUnfolds(m: Memory, d: nat, vs: seq<IdentityPage>, s: Memory)
    requires Mappables(m, d, vs) && vs != [] && Mappables(m, d, vs[..|vs| - 1])
    requires IdentityAll(m, d, vs).Some? && IdentityAll(m, d, vs[..|vs| - 1]) == Some(s)
    ensures var v := vs[|vs| - 1];
            && TableFits(s, d, v.page) && (LowFree(s.bits) != {} || HasTable(s, d, v.page / ENTRIES)) && Sound(s, d)
            && IdentityAll(m, d, vs) == Some(MapIdentity(s, d, v.page, v.user, false))
            && TablesFor(m, d, vs) == AndMissing(TablesFor(m, d, vs[..|vs| - 1]), m, d, v.page / ENTRIES)
  {
  }

  lemma IdentitySpendsOne(m: Memory, s: Memory, d: nat, v: IdentityPage, more: set<nat>)
    requires Sound(s, d) && Taken(s.bits, v.page) && Translate(s, d, v.page) == None && TableFits(s, d, v.page)
    requires Fits(s, d, v.page / ENTRIES, v.page % ENTRIES, v.page) && Spent(m, s, d, more, |more|)
    ensures LowFree(s.bits) != {} || HasTable(s, d, v.page / ENTRIES)
    ensures var next := AndMissing(more, m, d, v.page / ENTRIES);
            Spent(m, MapIdentity(s, d, v.page, v.user, false), d, next, |next|)
  {
    IdentityCounts(s, d, v.page, v.user);
    TablesGrow(more, v.page / ENTRIES);
  }

  /** The list can be mapped exactly if there is a free page for each missing table, and one more if any is missing. */
  lemma {:induction false} IdentityReturnsIff(m: Memory, d: nat, vs: seq<IdentityPage>)
    requires Mappables(m, d, vs)
    ensures IdentityAll(m, d, vs).Some? <==> TablesFor(m, d, vs) == {} || |LowFree(m.bits)| > |TablesFor(m, d, vs)|
    decreases |vs|
  {
    if vs != [] {
      var front, v := vs[..|vs| - 1], vs[|vs| - 1];
      FrontMappable(m, d, vs);
      IdentityReturnsIff(m, d, front);
      TablesGrow(TablesFor(m, d, front), v.page / ENTRIES);
      if IdentityAll(m, d, front).Some? {
        var s, before := IdentitySpends(m, d, front);
      }
    }
  }

  // ---------------------------------------------------------------- the kernel's own pages

  const KERNEL_START: nat := 256        // page of 0x0100000, where the image is linked
  const KERNEL_HEAP_PAGES: nat := 11520 // 45 MB
  const VGA_TEXT: nat := 0xB8
  const VGA_GRAPHICS: nat := 0xA0

  function KernelCount(kernelSize: nat): nat
    requires kernelSize > 0
  {
    (kernelSize - 1) / 4096 + 1
  }

  /** One megabyte past the end of the image, rounded down to a page. */
  function HeapStart(kernelSize: nat): nat {
    (KERNEL_START * 4096 + kernelSize + 1024 * 1024) / 4096
  }

  /** The image and its heap fit the address space. */
  predicate Fitting(kernelSize: nat) {
    kernelSize > 0 && HeapStart(kernelSize) + KERNEL_HEAP_PAGES <= PAGE_COUNT
  }

  predicate KernelPage(kernelSize: nat, p: nat)
    requires kernelSize > 0
  {
    || KERNEL_START <= p < KERNEL_START + KernelCount(kernelSize)
    || HeapStart(kernelSize) <= p < HeapStart(kernelSize) + KERNEL_HEAP_PAGES
    || p == VGA_TEXT || p == VGA_GRAPHICS
  }

  /**
   * The kernel's pages by address: the image from 1 MB on, 45 MB of heap from the page one megabyte
   * past its end, and the two VGA pages.
   */
  lemma KernelBytesIff(kernelSize: nat, a: nat)
    requires kernelSize > 0
    ensures var heap := (0x20_0000 + kernelSize) / 4096 * 4096;
            KernelPage(kernelSize, a / 4096)
            <==> || 0x10_0000 <= a < 0x10_0000 + (kernelSize + 4095) / 4096 * 4096
                 || heap <= a < heap + 47185920
                 || 0xA_0000 <= a < 0xA_1000 || 0xB_8000 <= a < 0xB_9000
  {
  }

  /** n pages from p on. */
  function Stretch(p: nat, n: nat, user: bool): (r: seq<IdentityPage>)
    requires p + n <= PAGE_COUNT
    ensures |r| == n && forall i :: 0 <= i < n ==> r[i] == IdentityPage(p + i, user)
  {
    seq(n, i requires 0 <= i < n => IdentityPage(p + i, user))
  }

  lemma KernelBelowHeap(kernelSize: nat)
    requires kernelSize > 0
    ensures KERNEL_START + KernelCount(kernelSize) <= HeapStart(kernelSize)
  {
  }

  /** Everything `paging_init_directory` maps, in its order. */
  function KernelPages(kernelSize: nat): seq<IdentityPage>
    requires Fitting(kernelSize)
  {
    KernelBelowHeap(kernelSize);
    Stretch(KERNEL_START, KernelCount(kernelSize), false) + Stretch(HeapStart(kernelSize), KERNEL_HEAP_PAGES, true)
    + [IdentityPage(VGA_TEXT, true), IdentityPage(VGA_GRAPHICS, true)]
  }

  lemma KernelPagesList(kernelSize: nat, q: nat)
    requires Fitting(kernelSize)
    ensures Lists(KernelPages(kernelSize), q) <==> KernelPage(kernelSize, q)
  {
    KernelBelowHeap(kernelSize);
    var vs := KernelPages(kernelSize);
    var n := KernelCount(kernelSize);
    if KERNEL_START <= q < KERNEL_START + n {
      assert vs[q - KERNEL_START].page == q;
    } else if HeapStart(kernelSize) <= q < HeapStart(kernelSize) + KERNEL_HEAP_PAGES {
      assert vs[n + q - HeapStart(kernelSize)].page == q;
    } else {
      assert vs[n + KERNEL_HEAP_PAGES].page == VGA_TEXT && vs[n + KERNEL_HEAP_PAGES + 1].page == VGA_GRAPHICS;
    }
  }

  lemma KernelPagesDistinct(kernelSize: nat)
    requires Fitting(kernelSize)
    ensures forall i, k :: 0 <= i < k < |KernelPages(kernelSize)| ==>
             KernelPages(kernelSize)[i].page != KernelPages(kernelSize)[k].page
  {
    KernelBelowHeap(kernelSize);
  }

  /** Page 0 and the kernel's pages are taken, as `paging_init` leaves them. */
  ghost predicate KernelTaken(bits: seq<bv8>, kernelSize: nat)
    requires |bits| == BITMAP_SIZE_BYTES && kernelSize > 0
  {
    Taken(bits, 0) && forall p: nat :: p < PAGE_COUNT && KernelPage(kernelSize, p) ==> Taken(bits, p)
  }

  /** A wiped directory page. */
  function Wiped(m: Memory, d: nat): Memory {
    m.(phys := m.phys[d := ZeroPage()])
  }

  /** The directory entries the kernel's pages fall in. */
  ghost function KernelTables(kernelSize: nat): set<nat>
    requires Fitting(kernelSize)
  {
    set q: nat | q < PAGE_COUNT && KernelPage(kernelSize, q) :: q / ENTRIES
  }

  /** A taken page that is no kernel page, in a system with a free page for each table of the kernel, and one more. */
  ghost predicate CanInit(m: Memory, d: nat, kernelSize: nat) {
    && |m.bits| == BITMAP_SIZE_BYTES && Fitting(kernelSize) && KernelTaken(m.bits, kernelSize)
    && 0 < d < PAGE_COUNT && Taken(m.bits, d) && !KernelPage(kernelSize, d)
    && |LowFree(m.bits)| > |KernelTables(kernelSize)|
  }

  /** Wiping a taken page that is no kernel page gives a sound, empty directory ready for the kernel's pages. */
  lemma WipedReady(m: Memory, d: nat, kernelSize: nat)
    requires CanInit(m, d, kernelSize)
    ensures Mappables(Wiped(m, d), d, KernelPages(kernelSize)) && forall i :: !HasTable(Wiped(m, d), d, i)
  {
    var w := Wiped(m, d);
    assert IsTable(w, d) && w.bits == m.bits;
    assert Sound(w, d);
    KernelPagesDistinct(kernelSize);
    KernelPagesFit(m, w, d, kernelSize);
  }

  lemma KernelPagesFit(m: Memory, w: Memory, d: nat, kernelSize: nat)
    requires CanInit(m, d, kernelSize) && w == Wiped(m, d) && Readable(w, d) && forall i :: !HasTable(w, d, i)
    ensures var vs := KernelPages(kernelSize);
            forall i :: 0 <= i < |vs| ==> Fits(w, d, vs[i].page / ENTRIES, vs[i].page % ENTRIES, vs[i].page)
                                          && Taken(w.bits, vs[i].page) && Translate(w, d, vs[i].page) == None
  {
    var vs := KernelPages(kernelSize);
    forall i | 0 <= i < |vs|
      ensures KernelPage(kernelSize, vs[i].page) && vs[i].page != 0
    {
      KernelBelowHeap(kernelSize);
    }
  }

  /** In an empty directory the tables missing for some pages are all those they fall in. */
  lemma {:induction false} TablesAre(m: Memory, d: nat, vs: seq<IdentityPage>, i: nat)
    requires IsTable(m, d) && forall k :: !HasTable(m, d, k)
    ensures i in TablesFor(m, d, vs) <==> exists k :: 0 <= k < |vs| && vs[k].page / ENTRIES == i
    decreases |vs|
  {
    if vs != [] {
      var front := vs[..|vs| - 1];
      TablesAre(m, d, front, i);
      if k :| 0 <= k < |front| && front[k].page / ENTRIES == i {
        assert vs[k].page / ENTRIES == i;
      }
      if k :| 0 <= k < |vs| && vs[k].page / ENTRIES == i {
        assert k < |front| ==> front[k].page / ENTRIES == i;
      }
    }
  }

  lemma KernelTablesAre(m: Memory, d: nat, kernelSize: nat)
    requires Fitting(kernelSize) && IsTable(m, d) && forall k :: !HasTable(m, d, k)
    ensures TablesFor(m, d, KernelPages(kernelSize)) == KernelTables(kernelSize)
  {
    var vs := KernelPages(kernelSize);
    forall i: nat
      ensures i in TablesFor(m, d, vs) <==> i in KernelTables(kernelSize)
    {
      TablesAre(m, d, vs, i);
      if i in TablesFor(m, d, vs) {
        var k :| 0 <= k < |vs| && vs[k].page / ENTRIES == i;
        assert Lists(vs, vs[k].page);
        KernelPagesList(kernelSize, vs[k].page);
      }
      if q: nat :| q < PAGE_COUNT && KernelPage(kernelSize, q) && q / ENTRIES == i {
        KernelPagesList(kernelSize, q);
        var k :| 0 <= k < |vs| && vs[k].page == q;
        assert vs[k].page / ENTRIES == i;
      }
    }
  }

  lemma InitReturns(m: Memory, d: nat, kernelSize: nat)
    requires CanInit(m, d, kernelSize)
    ensures Mappables(Wiped(m, d), d, KernelPages(kernelSize))
    ensures IdentityAll(Wiped(m, d), d, KernelPages(kernelSize)).Some?
  {
    WipedReady(m, d, kernelSize);
    KernelTablesAre(Wiped(m, d), d, kernelSize);
    IdentityReturnsIff(Wiped(m, d), d, KernelPages(kernelSize));
  }

  /** `paging_init_directory`. */
  ghost function InitDirectory(m: Memory, d: nat, kernelSize: nat): Memory
    requires CanInit(m, d, kernelSize)
  {
    InitReturns(m, d, kernelSize);
    IdentityAll(Wiped(m, d), d, KernelPages(kernelSize)).value
  }

  /** A new directory translates the kernel, its heap and the VGA pages to themselves, and nothing else. */
  lemma InitTranslates(m: Memory, d: nat, kernelSize: nat, q: nat)
    requires CanInit(m, d, kernelSize)
    requires q < PAGE_COUNT
    ensures var r := InitDirectory(m, d, kernelSize);
            Sound(r, d) && Translate(r, d, q) == if KernelPage(kernelSize, q) then Some(q) else None
  {
    InitReturns(m, d, kernelSize);
    WipedReady(m, d, kernelSize);
    KernelPagesList(kernelSize, q);
    assert Translate(Wiped(m, d), d, q) == None;
  }

  /** Mapping any of the kernel's pages onto itself a second time makes the new directory unsound. */
  lemma IdentityTwiceRuins(m: Memory, d: nat, kernelSize: nat, p: frame, user: bool, readWrite: bool)
    requires CanInit(m, d, kernelSize) && KernelPage(kernelSize, p)
    ensures var r := InitDirectory(m, d, kernelSize);
            Sound(r, d) && HasTable(r, d, p / ENTRIES) && !Sound(MapIdentity(r, d, p, user, readWrite), d)
  {
    InitTranslates(m, d, kernelSize, p);
    var r := InitDirectory(m, d, kernelSize);
    assert HasLeaf(r, d, p / ENTRIES, p % ENTRIES);
    IdentitySoundIff(r, d, p, user, readWrite);
  }

  /** The page the allocator gives out is fit to become a directory. */
  lemma FreshPageFits(m: Memory, d: nat, kernelSize: nat)
    requires |m.bits| == BITMAP_SIZE_BYTES && Fitting(kernelSize) && KernelTaken(m.bits, kernelSize)
    requires |LowFree(m.bits)| > |KernelTables(kernelSize)| + 1 && IsLowestFree(m.bits, d)
    ensures CanInit(Memory(Mark(m.bits, d), m.phys), d, kernelSize)
  {
    LowFreeMark(m.bits, d);
    assert d in LowFree(m.bits);
    forall p: nat | p < PAGE_COUNT
      ensures Taken(Mark(m.bits, d), p) <==> p == d || Taken(m.bits, p)
    {
      TakenMark(m.bits, d, p);
    }
  }

  // ---------------------------------------------------------------- paging_free_directory

  /** Pages `paging_free_directory` lets go: the directory, its tables, and whatever they map. */
  ghost predicate InFootprint(m: Memory, d: nat, p: nat)
    requires Readable(m, d)
  {
    || p == d
    || (exists i :: HasTable(m, d, i) && TableOf(m, d, i) == p)
    || (exists i, j :: HasLeaf(m, d, i, j) && LeafOf(m, d, i, j) == p)
  }

  /** r is m after directory d was freed. */
  ghost predicate DirectoryFreed(m: Memory, r: Memory, d: nat) {
    && Readable(m, d) && |r.bits| == BITMAP_SIZE_BYTES && r.phys == m.phys
    && forall p: nat :: p < PAGE_COUNT ==> (Taken(r.bits, p) <==> Taken(m.bits, p) && !InFootprint(m, d, p))
  }

  /** Another directory survives the freeing of d exactly when the two have no page in common. */
  lemma FreeingKeepsOtherIff(m: Memory, r: Memory, d: nat, e: nat)
    requires Sound(m, d) && Sound(m, e) && DirectoryFreed(m, r, d)
    ensures Sound(r, e) <==> forall p: nat :: p < PAGE_COUNT && InFootprint(m, e, p) ==> !InFootprint(m, d, p)
  {
    assert IsTable(r, e);
    assert forall i :: HasTable(r, e, i) == HasTable(m, e, i);
    assert forall i, j :: HasLeaf(r, e, i, j) == HasLeaf(m, e, i, j);
    if Sound(r, e) {
      forall p: nat | p < PAGE_COUNT && InFootprint(m, e, p)
        ensures !InFootprint(m, d, p)
      {
        FootprintTaken(r, e, p);
      }
    }
    if forall p: nat :: p < PAGE_COUNT && InFootprint(m, e, p) ==> !InFootprint(m, d, p) {
      forall i | HasTable(m, e, i) ensures Taken(r.bits, TableOf(m, e, i)) {
        assert InFootprint(m, e, TableOf(m, e, i));
      }
      forall i, j | HasLeaf(m, e, i, j) ensures Taken(r.bits, LeafOf(m, e, i, j)) {
        assert InFootprint(m, e, LeafOf(m, e, i, j));
      }
      assert InFootprint(m, e, e);
      assert !InFootprint(m, d, 0);
    }
  }

  lemma FootprintTaken(m: Memory, d: nat, p: nat)
    requires Sound(m, d) && InFootprint(m, d, p)
    ensures p < PAGE_COUNT && Taken(m.bits, p)
  {
  }

  /**
   * So freeing one directory ruins every other: both map the VGA page onto itself, which becomes
   * free, and the next page handed out is at or below it.
   */
  lemma FreeingRuinsOthers(m: Memory, r: Memory, d: nat, e: nat)
    requires Sound(m, d) && Sound(m, e) && DirectoryFreed(m, r, d)
    requires Translate(m, d, VGA_GRAPHICS) == Some(VGA_GRAPHICS) == Translate(m, e, VGA_GRAPHICS)
    ensures !Sound(r, e)
    ensures LowFree(r.bits) != {} && Lowest(r.bits) <= VGA_GRAPHICS
  {
    var i, j := VGA_GRAPHICS / ENTRIES, VGA_GRAPHICS % ENTRIES;
    assert HasLeaf(m, d, i, j) && LeafOf(m, d, i, j) == VGA_GRAPHICS;
    assert InFootprint(m, d, VGA_GRAPHICS);
    assert InFootprint(m, e, VGA_GRAPHICS) by {
      assert HasLeaf(m, e, i, j) && LeafOf(m, e, i, j) == VGA_GRAPHICS;
    }
    FreeingKeepsOtherIff(m, r, d, e);
    assert VGA_GRAPHICS in LowFree(r.bits);
    assert Lowest(r.bits) <= VGA_GRAPHICS;
  }
}
