/** What heap operations keep, and what they undo. */
module HeapProofs {
  import opened Words
  import opened HeapBlocks

  // ---------------------------------------------------------------- sums and live blocks

  ghost function Live(bs: seq<Block>): set<Block> {
    set b | b in bs && b.taken
  }

  lemma LiveConcat(a: seq<Block>, b: seq<Block>)
    ensures Live(a + b) == Live(a) + Live(b)
  {
  }

  lemma {:induction false} UsedConcat(a: seq<Block>, b: seq<Block>)
    ensures Used(a + b) == Used(a) + Used(b)
    ensures FreeBytes(a + b) == FreeBytes(a) + FreeBytes(b)
  {
    if b == [] {
      assert a + b == a;
    } else {
      assert (a + b)[..|a + b| - 1] == a + b[..|b| - 1];
      UsedConcat(a, b[..|b| - 1]);
    }
  }

  lemma UsedOne(b: Block)
    ensures Used([b]) == HEADER + (if b.taken then b.size else 0)
    ensures FreeBytes([b]) == if b.taken then 0 else b.size
  {
    assert [b][..0] == [];
  }

  lemma Concat3(a: seq<Block>, m: seq<Block>, c: seq<Block>)
    ensures Used(a + m + c) == Used(a) + Used(m) + Used(c)
    ensures FreeBytes(a + m + c) == FreeBytes(a) + FreeBytes(m) + FreeBytes(c)
    ensures Live(a + m + c) == Live(a) + Live(m) + Live(c)
  {
    UsedConcat(a + m, c);
    UsedConcat(a, m);
    LiveConcat(a + m, c);
    LiveConcat(a, m);
  }

  /** A stretch of the list exchanged for other blocks. */
  lemma Exchange(bs: seq<Block>, i: nat, j: nat, mid: seq<Block>)
    requires i <= j <= |bs|
    ensures var rs := bs[..i] + mid + bs[j..];
            && Used(rs) == Used(bs) - Used(bs[i..j]) + Used(mid)
            && Live(rs) == Live(bs[..i]) + Live(mid) + Live(bs[j..])
    ensures Live(bs) == Live(bs[..i]) + Live(bs[i..j]) + Live(bs[j..])
  {
    assert bs == bs[..i] + bs[i..j] + bs[j..];
    Concat3(bs[..i], bs[i..j], bs[j..]);
    Concat3(bs[..i], mid, bs[j..]);
  }

  lemma UsedTwo(b: Block, c: Block)
    ensures Used([b, c]) == Used([b]) + Used([c]) && Live([b, c]) == Live([b]) + Live([c])
  {
    assert [b, c] == [b] + [c];
    UsedConcat([b], [c]);
    LiveConcat([b], [c]);
  }

  /** One block exchanged for another in place. */
  lemma ExchangeOne(bs: seq<Block>, i: nat, b: Block)
    requires i < |bs|
    ensures bs[i := b] == bs[..i] + [b] + bs[i + 1..]
    ensures Used(bs[i := b]) == Used(bs) - Used([bs[i]]) + Used([b])
    ensures Live(bs[i := b]) == Live(bs[..i]) + Live([b]) + Live(bs[i + 1..])
    ensures Live(bs) == Live(bs[..i]) + Live([bs[i]]) + Live(bs[i + 1..])
  {
    assert bs[i := b] == bs[..i] + [b] + bs[i + 1..];
    assert bs[i..i + 1] == [bs[i]];
    Exchange(bs, i, i + 1, [b]);
  }

  lemma LiveOne(b: Block)
    ensures Live([b]) == if b.taken then {b} else {}
  {
  }

  /** Blocks lie in order and do not overlap. */
  lemma {:induction false} Ordered(bs: seq<Block>, i: nat, j: nat)
    requires Tiles(bs) && i < j < |bs|
    ensures End(bs[i]) <= bs[j].addr
    decreases j
  {
    if j > i + 1 {
      Ordered(bs, i, j - 1);
    }
  }

  /** Headers and payloads fill the heap: used and free bytes add up to its size. */
  lemma {:induction false} AccountsForAll(bs: seq<Block>)
    requires Tiles(bs) && bs != []
    ensures Used(bs) + FreeBytes(bs) == Total(bs)
  {
    var n := |bs| - 1;
    assert Used(bs[..n]) + FreeBytes(bs[..n]) == bs[n].addr - bs[0].addr by {
      if n > 0 {
        AccountsForAll(bs[..n]);
      }
    }
  }

  // ---------------------------------------------------------------- replacing one block

  /** Replacing block i by pieces that tile its extent keeps the tiling. */
  lemma TilesReplace(bs: seq<Block>, i: nat, j: nat, mid: seq<Block>)
    requires Tiles(bs) && i < j <= |bs| && mid != [] && Tiles(mid)
    requires mid[0].addr == bs[i].addr && End(mid[|mid| - 1]) == End(bs[j - 1])
    ensures Tiles(bs[..i] + mid + bs[j..])
    ensures var r := bs[..i] + mid + bs[j..]; r[0].addr == bs[0].addr && End(r[|r| - 1]) == End(bs[|bs| - 1])
  {
    var r := bs[..i] + mid + bs[j..];
    forall k | 0 < k < |r|
      ensures r[k].addr == End(r[k - 1])
    {
      if k < i {
      } else if k == i {
        assert r[k] == mid[0];
      } else if k < i + |mid| {
        assert r[k] == mid[k - i] && r[k - 1] == mid[k - i - 1];
      } else {
        assert r[k] == bs[k - i - |mid| + j];
        assert r[k - 1] == if k == i + |mid| then mid[|mid| - 1] else bs[k - 1 - i - |mid| + j];
      }
    }
  }

  /** Facts every place in the list satisfies are kept when the new pieces satisfy them. */
  lemma SizesReplace(bs: seq<Block>, i: nat, j: nat, mid: seq<Block>)
    requires i < j <= |bs|
    requires forall k :: 0 <= k < |bs| ==> bs[k].size > 0
    requires forall k :: 0 <= k < |mid| ==> mid[k].size > 0
    ensures forall k :: 0 <= k < |bs[..i] + mid + bs[j..]| ==> (bs[..i] + mid + bs[j..])[k].size > 0
  {
  }

  lemma SomeFree(bs: seq<Block>, i: nat)
    requires i < |bs| && !bs[i].taken
    ensures First(bs, IsFree).Some?
  {
    assert IsFree(bs[i]);
  }

  // ---------------------------------------------------------------- allocate

  /** rs is bs with block i, free in bs, handed out: only it becomes live, in place, and the extent stays. */
  ghost predicate Placed(bs: seq<Block>, rs: seq<Block>, i: nat, size: nat) {
    && WellFormed(rs) && i < |bs| && i < |rs|
    && rs[i].taken && rs[i].addr == bs[i].addr && rs[i].size >= size && End(rs[i]) <= End(bs[i])
    && Live(rs) == Live(bs) + {rs[i]} && rs[i] !in Live(bs)
    && rs[0].addr == bs[0].addr && End(rs[|rs| - 1]) == End(bs[|bs| - 1])
    && Used(rs) == Used(bs) + rs[i].size + (|rs| - |bs|) * HEADER
  }

  lemma SplitKeeps(bs: seq<Block>, i: nat, size: nat)
    requires WellFormed(bs) && i < |bs| && !bs[i].taken && bs[i].size > size + HEADER && size > 0
    ensures Placed(bs, bs[..i] + Pieces(bs[i], size) + bs[i + 1..], i, size)
  {
    var b := bs[i];
    var mid := Pieces(b, size);
    var rs := bs[..i] + mid + bs[i + 1..];
    SplitSums(bs, i, size);
    TilesReplace(bs, i, i + 1, mid);
    SizesReplace(bs, i, i + 1, mid);
    assert rs[i] == mid[0] && rs[i + 1] == mid[1];
    SomeFree(rs, i + 1);
    SplitApart(bs, i, mid);
    NotLive(bs, i, mid[0]);
  }

  lemma SplitSums(bs: seq<Block>, i: nat, size: nat)
    requires i < |bs| && !bs[i].taken && bs[i].size > size + HEADER
    ensures var rs := bs[..i] + Pieces(bs[i], size) + bs[i + 1..];
            && Used(rs) == Used(bs) + size + HEADER
            && Live(rs) == Live(bs) + {Pieces(bs[i], size)[0]}
  {
    var mid := Pieces(bs[i], size);
    assert bs[i..i + 1] == [bs[i]];
    Exchange(bs, i, i + 1, mid);
    UsedTwo(mid[0], mid[1]);
    UsedOne(mid[0]);
    UsedOne(mid[1]);
    UsedOne(bs[i]);
    LiveOne(mid[0]);
    LiveOne(mid[1]);
    LiveOne(bs[i]);
  }

  lemma ClaimSums(bs: seq<Block>, i: nat)
    requires i < |bs| && !bs[i].taken
    ensures Used(bs[i := Claimed(bs[i])]) == Used(bs) + bs[i].size
    ensures Live(bs[i := Claimed(bs[i])]) == Live(bs) + {Claimed(bs[i])}
  {
    var b := Claimed(bs[i]);
    ExchangeOne(bs, i, b);
    UsedOne(b);
    UsedOne(bs[i]);
    LiveOne(b);
    LiveOne(bs[i]);
  }

  lemma ClaimShape(bs: seq<Block>, i: nat)
    requires WellFormed(bs) && i < |bs| && !bs[i].taken && First(bs[i := Claimed(bs[i])], IsFree).Some?
    ensures WellFormed(bs[i := Claimed(bs[i])])
  {
    var rs := bs[i := Claimed(bs[i])];
    assert forall k :: 0 <= k < |bs| ==> rs[k].addr == bs[k].addr && End(rs[k]) == End(bs[k]);
  }

  lemma ClaimKeeps(bs: seq<Block>, i: nat, size: nat)
    requires WellFormed(bs) && i < |bs| && !bs[i].taken && bs[i].size >= size
    requires First(bs[i := Claimed(bs[i])], IsFree).Some?
    ensures Placed(bs, bs[i := Claimed(bs[i])], i, size)
  {
    ClaimSums(bs, i);
    ClaimShape(bs, i);
    NotLive(bs, i, Claimed(bs[i]));
  }

  lemma PlaceKeeps(bs: seq<Block>, i: nat, size: nat, test: Test := Compiled)
    requires WellFormed(bs) && i < |bs| && !bs[i].taken && bs[i].size >= size > 0
    ensures Place(bs, i, size, test).outcome.Given? ==> Placed(bs, Place(bs, i, size, test).blocks, i, size)
  {
    if bs[i].size > size + HEADER {
      SplitKeeps(bs, i, size);
    } else if Place(bs, i, size, test).outcome.Given? {
      ClaimKeeps(bs, i, size);
    }
  }

  lemma SplitApart(bs: seq<Block>, i: nat, mid: seq<Block>)
    requires NoAdjacentFree(bs) && i < |bs| && !bs[i].taken && |mid| == 2 && mid[0].taken && !mid[1].taken
    ensures NoAdjacentFree(bs[..i] + mid + bs[i + 1..])
  {
    var r := bs[..i] + mid + bs[i + 1..];
    forall k | 0 < k < |r|
      ensures r[k - 1].taken || r[k].taken
    {
      if k > i + 1 {
        assert r[k] == bs[k - 1];
        assert k > i + 2 ==> r[k - 1] == bs[k - 2];
      }
    }
  }

  /** A block at the address of a free block is not among the live ones. */
  lemma NotLive(bs: seq<Block>, i: nat, b: Block)
    requires Tiles(bs) && i < |bs| && !bs[i].taken && b.addr == bs[i].addr
    ensures b !in Live(bs)
  {
    forall j | 0 <= j < |bs| && bs[j].taken
      ensures bs[j] != b
    {
      if j < i {
        Ordered(bs, j, i);
      } else {
        Ordered(bs, i, j);
      }
    }
  }

  // ---------------------------------------------------------------- expand

  lemma GrownSums(bs: seq<Block>, n: nat)
    requires bs != [] && !bs[|bs| - 1].taken
    ensures Live(Grown(bs, n)) == Live(bs) && Used(Grown(bs, n)) == Used(bs)
  {
    var l := |bs| - 1;
    var b := Grown(bs, n)[l];
    ExchangeOne(bs, l, b);
    UsedOne(bs[l]);
    UsedOne(b);
    LiveOne(bs[l]);
    LiveOne(b);
  }

  lemma GrownKeeps(bs: seq<Block>, n: nat)
    requires WellFormed(bs) && End(bs[|bs| - 1]) + n * PAGE_SIZE < WORD
    ensures var gs := Grown(bs, n);
            && WellFormed(gs) && Total(gs) == Total(bs) + n * PAGE_SIZE && gs[0].addr == bs[0].addr
            && (!bs[|bs| - 1].taken ==> Live(gs) == Live(bs) && Used(gs) == Used(bs))
  {
    SomeFree(Grown(bs, n), First(bs, IsFree).value);
    if !bs[|bs| - 1].taken {
      GrownSums(bs, n);
    }
  }

  // ---------------------------------------------------------------- allocate as a whole

  lemma FitOnlyAtTop(bs: seq<Block>, n: nat, size: nat)
    requires bs != [] && FirstFit(bs, size).None? && FirstFit(Grown(bs, n), size).Some?
    ensures FirstFit(Grown(bs, n), size) == Some(|bs| - 1) && !bs[|bs| - 1].taken
  {
    var gs := Grown(bs, n);
    var i := FirstFit(gs, size).value;
    assert forall j :: 0 <= j < |bs| - 1 ==> gs[j] == bs[j];
  }

  /** rs has the live blocks of bs and one more, b: at least `size` bytes behind pointer ptr. */
  ghost predicate Gains(bs: seq<Block>, rs: seq<Block>, b: Block, ptr: nat, size: nat) {
    && b.taken && b !in Live(bs) && Live(rs) == Live(bs) + {b}
    && Pointer(b) == ptr && b.size >= size
  }

  lemma GainsPlaced(bs: seq<Block>, gs: seq<Block>, i: nat, size: nat, test: Test) returns (b: Block)
    requires WellFormed(gs) && Live(gs) == Live(bs) && i < |gs| && !gs[i].taken && gs[i].size >= size > 0
    requires Place(gs, i, size, test).outcome.Given?
    ensures var r := Place(gs, i, size, test);
            WellFormed(r.blocks) && r.blocks[0].addr == gs[0].addr && Gains(bs, r.blocks, b, r.outcome.ptr, size)
  {
    PlaceKeeps(gs, i, size, test);
    b := Place(gs, i, size, test).blocks[i];
  }

  /**
   * An allocation that hands out a pointer keeps the heap well formed. Its block holds at least
   * the bytes asked for, is new among the live blocks, and every other live block is untouched.
   */
  lemma AllocateKeeps(bs: seq<Block>, size: nat, test: Test := Compiled) returns (b: Block)
    requires WellFormed(bs) && size > 0 && Allocate(bs, size, test).outcome.Given?
    ensures var r := Allocate(bs, size, test);
            && WellFormed(r.blocks) && r.blocks[0].addr == bs[0].addr
            && Gains(bs, r.blocks, b, r.outcome.ptr, size)
  {
    var i := FirstFit(bs, size);
    if i.Some? {
      b := GainsPlaced(bs, bs, i.value, size, test);
    } else {
      var n := PagesNeeded(Used(bs), size, Total(bs));
      GrownKeeps(bs, n);
      FitOnlyAtTop(bs, n, size);
      b := GainsPlaced(bs, Grown(bs, n), |bs| - 1, size, test);
    }
  }

  // ---------------------------------------------------------------- free

  /** Merging is going on at block i, which is free: only its own borders may join two free blocks. */
  ghost predicate Merging(bs: seq<Block>, i: nat) {
    && i < |bs| && !bs[i].taken && Tiles(bs)
    && (forall k :: 0 <= k < |bs| ==> bs[k].size > 0)
    && (forall k :: 0 < k < |bs| && k != i && k != i + 1 ==> bs[k - 1].taken || bs[k].taken)
  }

  /** rs covers the extent of bs with the same live blocks and one header less per block missing. */
  ghost predicate Merged(bs: seq<Block>, rs: seq<Block>) {
    && bs != [] && rs != [] && Tiles(rs)
    && rs[0].addr == bs[0].addr && End(rs[|rs| - 1]) == End(bs[|bs| - 1])
    && (forall k :: 0 <= k < |rs| ==> rs[k].size > 0)
    && Live(rs) == Live(bs) && Used(rs) == Used(bs) - (|bs| - |rs|) * HEADER
  }

  lemma JoinKeeps(bs: seq<Block>, i: nat)
    requires Merging(bs, i) && i + 1 < |bs| && !bs[i + 1].taken
    ensures var js := Join(bs, i);
            && Merging(js, i) && Merged(bs, js)
            && (i + 1 < |js| ==> js[i + 1].taken)
  {
    var b, c := bs[i], bs[i + 1];
    var mid := [b.(size := b.size + HEADER + c.size)];
    assert bs[i + 1].addr == End(bs[i]);
    var js := bs[..i] + mid + bs[i + 2..];
    assert js == Join(bs, i);
    TilesReplace(bs, i, i + 2, mid);
    JoinUsed(bs, i);
    forall k | 0 <= k < |js|
      ensures js[k].size > 0
      ensures 0 < k && k != i ==> js[k - 1].taken || js[k].taken
    {
      if k > i {
        assert js[k] == bs[k + 1];
        assert k > i + 1 ==> js[k - 1] == bs[k];
      }
    }
  }

  lemma JoinNextKeeps(bs: seq<Block>, i: nat)
    requires Merging(bs, i)
    ensures var js := JoinNext(bs, i);
            Merging(js, i) && Merged(bs, js) && (i + 1 < |js| ==> js[i + 1].taken) && js[i].addr == bs[i].addr
  {
    if i + 1 < |bs| && !bs[i + 1].taken {
      JoinKeeps(bs, i);
    }
  }

  lemma JoinParts(bs: seq<Block>, i: nat) returns (m: Block)
    requires i + 1 < |bs|
    ensures bs == bs[..i] + [bs[i], bs[i + 1]] + bs[i + 2..]
    ensures Join(bs, i) == bs[..i] + [m] + bs[i + 2..] && m.taken == bs[i].taken
  {
    m := bs[i].(size := bs[i].size + HEADER + bs[i + 1].size);
  }

  lemma JoinUsed(bs: seq<Block>, i: nat)
    requires i + 1 < |bs| && !bs[i].taken && !bs[i + 1].taken
    ensures Used(Join(bs, i)) == Used(bs) - HEADER
    ensures Live(Join(bs, i)) == Live(bs)
  {
    var m := JoinParts(bs, i);
    FreePair([bs[i], bs[i + 1]], m);
    SwapMiddle(bs[..i], [bs[i], bs[i + 1]], [m], bs[i + 2..]);
  }

  lemma SwapMiddle(a: seq<Block>, m: seq<Block>, m': seq<Block>, c: seq<Block>)
    requires Live(m) == Live(m')
    ensures Used(a + m' + c) == Used(a + m + c) - Used(m) + Used(m') && Live(a + m' + c) == Live(a + m + c)
  {
    Concat3(a, m, c);
    Concat3(a, m', c);
  }

  lemma FreePair(two: seq<Block>, m: Block)
    requires |two| == 2 && !two[0].taken && !two[1].taken && !m.taken
    ensures Used(two) == Used([m]) + HEADER && Live(two) == {} == Live([m])
  {
    assert two == [two[0], two[1]];
    UsedTwo(two[0], two[1]);
    UsedOne(two[0]);
    UsedOne(two[1]);
    UsedOne(m);
    LiveOne(two[0]);
    LiveOne(two[1]);
    LiveOne(m);
  }

  lemma MergedTrans(a: seq<Block>, b: seq<Block>, c: seq<Block>)
    requires Merged(a, b) && Merged(b, c)
    ensures Merged(a, c)
  {
  }

  /** The recursion ends with no two free neighbours, and loses one header per block swallowed. */
  lemma {:induction false} MergeKeeps(bs: seq<Block>, i: nat)
    requires Merging(bs, i)
    ensures Merged(bs, Merge(bs, i)) && NoAdjacentFree(Merge(bs, i))
    decreases i
  {
    var js := JoinNext(bs, i);
    JoinNextKeeps(bs, i);
    if i > 0 && !js[i - 1].taken {
      MergingLeft(js, i);
      MergeKeeps(js, i - 1);
      MergedTrans(bs, js, Merge(js, i - 1));
    } else {
      MergingDone(js, i);
    }
  }

  lemma MergingLeft(js: seq<Block>, i: nat)
    requires 0 < i && Merging(js, i) && (i + 1 < |js| ==> js[i + 1].taken) && !js[i - 1].taken
    ensures Merging(js, i - 1)
  {
  }

  lemma MergingDone(js: seq<Block>, i: nat)
    requires Merging(js, i) && (i + 1 < |js| ==> js[i + 1].taken) && (i > 0 ==> js[i - 1].taken)
    ensures NoAdjacentFree(js)
  {
  }

  /** Everything below the merged block is as it was, and the merged block is free. */
  lemma {:induction false} MergePlace(bs: seq<Block>, i: nat)
    requires Merging(bs, i)
    ensures var m := MergeIndex(bs, i);
            Merge(bs, i)[..m] == bs[..m] && Merge(bs, i)[m].addr == bs[m].addr && !Merge(bs, i)[m].taken
    decreases i
  {
    var js := JoinNext(bs, i);
    JoinNextKeeps(bs, i);
    if i > 0 && !js[i - 1].taken {
      MergingLeft(js, i);
      MergePlace(js, i - 1);
      var m := MergeIndex(js, i - 1);
      SamePrefix(js, bs, i, m);
    }
  }

  lemma SamePrefix<T>(a: seq<T>, b: seq<T>, i: nat, m: nat)
    requires m < i <= |a| && i <= |b| && a[..i] == b[..i]
    ensures a[..m] == b[..m] && a[m] == b[m]
  {
    assert forall k :: 0 <= k < i ==> a[k] == a[..i][k] == b[..i][k] == b[k];
  }

  lemma Released(bs: seq<Block>, i: nat)
    requires WellFormed(bs) && i < |bs| && bs[i].taken
    ensures var fs := bs[i := bs[i].(taken := false)];
            && Merging(fs, i) && fs[0].addr == bs[0].addr && End(fs[|fs| - 1]) == End(bs[|bs| - 1])
            && Live(fs) == Live(bs) - {bs[i]} && Used(fs) == Used(bs) - bs[i].size
  {
    var f := bs[i].(taken := false);
    ExchangeOne(bs, i, f);
    UsedOne(f);
    UsedOne(bs[i]);
    LiveOne(f);
    LiveOne(bs[i]);
    TilesReplace(bs, i, i + 1, [f]);
    OnlyPlace(bs, i);
  }

  /** A block occurs at one place only. */
  lemma OnlyPlace(bs: seq<Block>, i: nat)
    requires Tiles(bs) && i < |bs|
    ensures bs[i] !in Live(bs[..i]) && bs[i] !in Live(bs[i + 1..])
  {
    forall j | 0 <= j < |bs| && j != i
      ensures bs[j] != bs[i]
    {
      if j < i {
        Ordered(bs, j, i);
      } else {
        Ordered(bs, i, j);
      }
    }
  }

  /** rs is bs after block b, live in bs, was given back. */
  ghost predicate Freed(bs: seq<Block>, rs: seq<Block>, b: Block) {
    && bs != [] && WellFormed(rs) && rs[0].addr == bs[0].addr && End(rs[|rs| - 1]) == End(bs[|bs| - 1])
    && Live(rs) == Live(bs) - {b}
    && Used(rs) == Used(bs) - b.size - (|bs| - |rs|) * HEADER
  }

  lemma FreedStages(bs: seq<Block>, fs: seq<Block>, rs: seq<Block>, b: Block, m: nat)
    requires WellFormed(bs) && |fs| == |bs| && fs[0].addr == bs[0].addr && End(fs[|fs| - 1]) == End(bs[|bs| - 1])
    requires Live(fs) == Live(bs) - {b} && Used(fs) == Used(bs) - b.size
    requires Merged(fs, rs) && NoAdjacentFree(rs) && m < |rs| && !rs[m].taken
    ensures Freed(bs, rs, b)
  {
    SomeFree(rs, m);
  }

  /** Freeing block i keeps the heap well formed and takes exactly that block from the live ones. */
  lemma FreeKeeps(bs: seq<Block>, i: nat)
    requires WellFormed(bs) && i < |bs| && bs[i].taken
    ensures Freed(bs, Free(bs, i), bs[i])
  {
    Released(bs, i);
    var fs := bs[i := bs[i].(taken := false)];
    MergeKeeps(fs, i);
    MergePlace(fs, i);
    FreedStages(bs, fs, Free(bs, i), bs[i], MergeIndex(fs, i));
  }

  // ---------------------------------------------------------------- pointers

  lemma PointerIs(bs: seq<Block>, i: nat)
    requires Tiles(bs) && i < |bs| && bs[i].taken
    ensures FindPointer(bs, Pointer(bs[i])) == Some(i)
  {
    forall j | 0 <= j < i
      ensures Pointer(bs[j]) != Pointer(bs[i])
    {
      Ordered(bs, j, i);
    }
    FirstIs(bs, (b: Block) => b.taken && Pointer(b) == Pointer(bs[i]), i);
  }

  lemma FreeUndoesSplit(bs: seq<Block>, i: nat, size: nat)
    requires WellFormed(bs) && i < |bs| && !bs[i].taken && bs[i].size > size + HEADER
    ensures Free(bs[..i] + Pieces(bs[i], size) + bs[i + 1..], i) == bs
  {
    var rs := bs[..i] + Pieces(bs[i], size) + bs[i + 1..];
    var fs := rs[i := rs[i].(taken := false)];
    assert fs[i + 1] == Pieces(bs[i], size)[1] && fs[i + 2..] == bs[i + 1..];
    assert Join(fs, i) == bs;
    assert i > 0 ==> bs[i - 1].taken && bs[i - 1] == Join(fs, i)[i - 1];
  }

  lemma FreeUndoesClaim(bs: seq<Block>, i: nat)
    requires WellFormed(bs) && i < |bs| && !bs[i].taken
    ensures Free(bs[i := Claimed(bs[i])], i) == bs
  {
    var rs := bs[i := Claimed(bs[i])];
    assert rs[i := rs[i].(taken := false)] == bs;
  }

  /** Freeing what was just allocated gives back the list it came from. */
  lemma FreeUndoesPlace(bs: seq<Block>, i: nat, size: nat)
    requires WellFormed(bs) && i < |bs| && !bs[i].taken && bs[i].size >= size > 0
    requires Place(bs, i, size).outcome.Given?
    ensures Free(Place(bs, i, size).blocks, i) == bs
  {
    if bs[i].size > size + HEADER {
      FreeUndoesSplit(bs, i, size);
    } else {
      FreeUndoesClaim(bs, i);
    }
  }

  /**
   * Allocate then free: the heap is exactly what it was, or exactly what `expand` made of it
   * when the allocation had to grow it.
   */
  lemma FreeUndoesAllocate(bs: seq<Block>, size: nat)
    requires WellFormed(bs) && size > 0 && Allocate(bs, size).outcome.Given?
    ensures var r := Allocate(bs, size);
            && FindPointer(r.blocks, r.outcome.ptr).Some?
            && Free(r.blocks, FindPointer(r.blocks, r.outcome.ptr).value)
               == if FirstFit(bs, size).Some? then bs else Expand(bs, size)
  {
    var i := FirstFit(bs, size);
    if i.Some? {
      FreeUndoesFound(bs, i.value, size);
    } else {
      var n := PagesNeeded(Used(bs), size, Total(bs));
      GrownKeeps(bs, n);
      FitOnlyAtTop(bs, n, size);
      FreeUndoesFound(Grown(bs, n), |bs| - 1, size);
    }
  }

  lemma FreeUndoesFound(bs: seq<Block>, i: nat, size: nat)
    requires WellFormed(bs) && i < |bs| && !bs[i].taken && bs[i].size >= size > 0
    requires Place(bs, i, size).outcome.Given?
    ensures var r := Place(bs, i, size);
            FindPointer(r.blocks, r.outcome.ptr) == Some(i) && Free(r.blocks, i) == bs
  {
    PlaceKeeps(bs, i, size);
    FoundAgain(bs, Place(bs, i, size), i, size);
    FreeUndoesPlace(bs, i, size);
  }

  lemma FoundAgain(bs: seq<Block>, r: Result, i: nat, size: nat)
    requires i < |bs| && Placed(bs, r.blocks, i, size) && r.outcome == Given(Pointer(bs[i]))
    ensures FindPointer(r.blocks, r.outcome.ptr) == Some(i)
  {
    PointerIs(r.blocks, i);
  }

  // ---------------------------------------------------------------- when an allocation succeeds

  /** First fit: the lowest block that is free and holds the bytes asked for, an exact fit included. */
  lemma FirstFitIff(bs: seq<Block>, size: nat, f: nat)
    ensures FirstFit(bs, size) == Some(f)
            <==> && f < |bs| && !bs[f].taken && bs[f].size >= size
                 && forall j :: 0 <= j < f ==> bs[j].taken || bs[j].size < size
  {
    if f < |bs| && !bs[f].taken && bs[f].size >= size && forall j :: 0 <= j < f ==> bs[j].taken || bs[j].size < size {
      FirstIs(bs, (b: Block) => !b.taken && b.size >= size, f);
    }
  }

  /** The blocks an allocation chooses from: the heap, or the heap `expand` leaves. */
  function Searched(bs: seq<Block>, size: nat): seq<Block>
    requires bs != []
  {
    if FirstFit(bs, size).Some? then bs else Expand(bs, size)
  }

  /**
   * A pointer is handed out if and only if some block fits, in the heap or in the heap `expand`
   * leaves, and the first such block has more than a header to spare, or exactly a header and is
   * not the only free one, or less and is not the last. A header then runs past the end of the
   * block if and only if less was to spare; for the last block that is a page fault instead.
   */
  lemma AllocationSucceedsIff(bs: seq<Block>, size: nat)
    requires WellFormed(bs) && size > 0
    ensures var es := Searched(bs, size);
            var o := Allocate(bs, size).outcome;
            && (o.Given? || o.Corrupted?
                <==> && End(es[|es| - 1]) < WORD
                     && FirstFit(es, size).Some?
                     && var f := FirstFit(es, size).value;
                        && (es[f].size == size + HEADER ==> exists j :: 0 <= j < |es| && j != f && !es[j].taken)
                        && (es[f].size < size + HEADER ==> f + 1 < |es|))
            && (o.Faulted?
                <==> && End(es[|es| - 1]) < WORD
                     && FirstFit(es, size) == Some(|es| - 1) && es[|es| - 1].size < size + HEADER)
            && (o.Given? || o.Corrupted?
                ==> var b := es[FirstFit(es, size).value];
                    o.ptr == Pointer(b) && (o.Corrupted? <==> b.size < size + HEADER))
  {
    var es := Searched(bs, size);
    if FirstFit(es, size).Some? {
      var i := FirstFit(es, size).value;
      var rs := es[i := Claimed(es[i])];
      if j :| 0 <= j < |es| && j != i && !es[j].taken {
        assert IsFree(rs[j]);
      }
    }
  }

  /**
   * The other two ends of an allocation: a panic exactly if the only free block is chosen with
   * just a header to spare, and no more addresses exactly if nothing fits and growing would reach 2^32.
   */
  lemma AllocationFailsIff(bs: seq<Block>, size: nat)
    requires WellFormed(bs) && size > 0
    ensures var es, o := Searched(bs, size), Allocate(bs, size).outcome;
            && (o.OutOfAddressSpace? <==> FirstFit(bs, size).None? && End(es[|es| - 1]) >= WORD)
            && (o.Panicked?
                <==> && End(es[|es| - 1]) < WORD && FirstFit(es, size).Some?
                     && var f := FirstFit(es, size).value;
                        es[f].size == size + HEADER && forall j :: 0 <= j < |es| && j != f ==> es[j].taken)
  {
    var es := Searched(bs, size);
    if FirstFit(es, size).Some? {
      PanicsIff(es, FirstFit(es, size).value, size);
    }
  }

  lemma PanicsIff(es: seq<Block>, f: nat, size: nat)
    requires f < |es| && es[f].size >= size
    ensures Place(es, f, size).outcome.Panicked?
            <==> es[f].size == size + HEADER && forall j :: 0 <= j < |es| && j != f ==> es[j].taken
  {
    var rs := es[f := Claimed(es[f])];
    assert First(rs, IsFree).None? <==> forall j :: 0 <= j < |es| ==> rs[j].taken;
    assert forall j :: 0 <= j < |es| && j != f ==> rs[j] == es[j];
  }

  /** Where nothing fitted before growing, only a free last block can fit afterwards. */
  lemma FitsGrownIff(bs: seq<Block>, n: nat, size: nat)
    requires bs != [] && FirstFit(bs, size).None?
    ensures FirstFit(Grown(bs, n), size).Some? <==> !bs[|bs| - 1].taken && bs[|bs| - 1].size + n * PAGE_SIZE >= size
  {
    var l, gs := |bs| - 1, Grown(bs, n);
    assert forall j :: 0 <= j < l ==> gs[j] == bs[j];
    if FirstFit(gs, size).Some? {
      FitOnlyAtTop(bs, n, size);
    } else {
      assert gs[l].taken || gs[l].size < size;
    }
  }

  /** A request whose sum with the bytes used wraps at 2^32 fits nowhere, and `expand` adds no page for it. */
  lemma WrapsEndless(bs: seq<Block>, size: u32)
    requires WellFormed(bs) && Used(bs) + size >= WORD
    ensures FirstFit(bs, size).None? && Expand(bs, size) == bs
    ensures Allocate(bs, size).outcome == Endless && Allocate(bs, size).blocks == bs
  {
    AccountsForAll(bs);
    assert Wrap(Used(bs) + size) == Used(bs) + size - WORD;
    if FirstFit(bs, size).Some? {
      FreeBytesAtLeast(bs, FirstFit(bs, size).value);
    }
    assert Grown(bs, 0) == bs;
  }

  lemma {:induction false} FreeBytesAtLeast(bs: seq<Block>, i: nat)
    requires i < |bs| && !bs[i].taken
    ensures FreeBytes(bs) >= bs[i].size
    decreases |bs|
  {
    if i < |bs| - 1 {
      FreeBytesAtLeast(bs[..|bs| - 1], i);
    }
  }

  /**
   * The retry after growing never succeeds exactly when the sum of bytes used and asked for wraps
   * at 2^32, so that nothing grows, or when the heap grows, within 32 bits, and its last block is
   * taken or still too small.
   */
  lemma EndlessIff(bs: seq<Block>, size: u32)
    requires WellFormed(bs) && size > 0 && FirstFit(bs, size).None?
    ensures var l, n := bs[|bs| - 1], PagesNeeded(Used(bs), size, Total(bs));
            Allocate(bs, size).outcome.Endless?
            <==> || Used(bs) + size >= WORD
                 || (End(l) + n * PAGE_SIZE < WORD && (l.taken || l.size + n * PAGE_SIZE < size))
  {
    if Used(bs) + size >= WORD {
      WrapsEndless(bs, size);
    } else {
      var n := PagesNeeded(Used(bs), size, Total(bs));
      EndlessAfter(bs, size, n);
      FitsGrownIff(bs, n, size);
    }
  }

  lemma EndlessAfter(bs: seq<Block>, size: nat, n: nat)
    requires bs != [] && size > 0 && FirstFit(bs, size).None? && Expand(bs, size) == Grown(bs, n)
    ensures Allocate(bs, size).outcome.Endless?
            <==> End(bs[|bs| - 1]) + n * PAGE_SIZE < WORD && FirstFit(Grown(bs, n), size).None?
  {
  }

  /** After growing for a request, growing again for it adds nothing: the retry would see the same heap again. */
  lemma RetryRepeats(bs: seq<Block>, size: nat)
    requires WellFormed(bs)
    ensures PagesNeeded(Used(bs), size, Total(Expand(bs, size))) == 0
  {
  }

  lemma {:induction false} FreeBytesOfTaken(bs: seq<Block>)
    requires forall i :: 0 <= i < |bs| ==> bs[i].taken
    ensures FreeBytes(bs) == 0
  {
    if bs != [] {
      FreeBytesOfTaken(bs[..|bs| - 1]);
    }
  }

  /**
   * When the last block is free and is the only free one, growing the heap makes room exactly if
   * the sum of bytes used and asked for does not wrap at 2^32, and only then the retry can end.
   */
  lemma SingleFreeTopFits(bs: seq<Block>, size: u32)
    requires WellFormed(bs) && size > 0
    requires forall i :: 0 <= i < |bs| - 1 ==> bs[i].taken
    ensures FirstFit(Expand(bs, size), size).Some? <==> Used(bs) + size < WORD
    ensures Allocate(bs, size).outcome.Endless? <==> Used(bs) + size >= WORD
  {
    if Used(bs) + size >= WORD {
      WrapsEndless(bs, size);
    } else {
      OnlyTopFree(bs);
      TopMakesRoom(bs, size);
      EndlessFindsNothing(bs, size);
    }
  }

  lemma TopMakesRoom(bs: seq<Block>, size: u32)
    requires bs != [] && !bs[|bs| - 1].taken && Total(bs) == Used(bs) + bs[|bs| - 1].size
    requires Used(bs) + size < WORD
    ensures FirstFit(Expand(bs, size), size).Some?
  {
    var n := ExpandsEnough(bs, size);
    TopHoldsRest(bs, size, n);
  }

  lemma ExpandsEnough(bs: seq<Block>, size: u32) returns (n: nat)
    requires bs != []
    ensures Expand(bs, size) == Grown(bs, n) && Wrap(Used(bs) + size) < Total(bs) + n * PAGE_SIZE
  {
    n := PagesNeeded(Used(bs), size, Total(bs));
  }

  lemma EndlessFindsNothing(bs: seq<Block>, size: nat)
    requires bs != [] && FirstFit(Expand(bs, size), size).Some?
    ensures !Allocate(bs, size).outcome.Endless?
  {
  }

  lemma TopHoldsRest(bs: seq<Block>, size: u32, n: nat)
    requires bs != [] && !bs[|bs| - 1].taken && Total(bs) == Used(bs) + bs[|bs| - 1].size
    requires Used(bs) + size < WORD && Wrap(Used(bs) + size) < Total(bs) + n * PAGE_SIZE
    ensures FirstFit(Grown(bs, n), size).Some?
  {
    RestFits(Used(bs), size, Total(bs), bs[|bs| - 1].size, n);
    FitsAt(Grown(bs, n), |bs| - 1, size);
  }

  lemma RestFits(used: nat, size: u32, total: int, rest: nat, n: nat)
    requires used + size < WORD && total == used + rest && Wrap(used + size) < total + n * PAGE_SIZE
    ensures rest + n * PAGE_SIZE >= size
  {
    assert Wrap(used + size) == used + size;
  }

  lemma OnlyTopFree(bs: seq<Block>)
    requires WellFormed(bs) && forall i :: 0 <= i < |bs| - 1 ==> bs[i].taken
    ensures var l := |bs| - 1; !bs[l].taken && Total(bs) == Used(bs) + bs[l].size
  {
    assert IsFree(bs[|bs| - 1]) by {
      assert IsFree(bs[First(bs, IsFree).value]);
    }
    AccountsForAll(bs);
    FreeBytesOfTaken(bs[..|bs| - 1]);
  }

  lemma FitsAt(bs: seq<Block>, i: nat, size: nat)
    requires i < |bs| && !bs[i].taken && bs[i].size >= size
    ensures FirstFit(bs, size).Some?
  {
  }

  // ---------------------------------------------------------------- the unsigned split test

  /**
   * The compiled split test says "split" for every remainder but exactly one header, while the
   * new header and its payload fit inside the old block only for larger remainders.
   */
  lemma SplitTestIff(b: Block, size: nat)
    requires b.size < WORD && size <= b.size
    ensures SplitTest(b.size, size) <==> b.size != size + HEADER
    ensures var newHeader := b.addr + HEADER + size;
            newHeader + HEADER + Wrap(b.size - size - HEADER) == End(b) <==> b.size >= size + HEADER
  {
    if b.size >= size + HEADER {
      assert Wrap(b.size - size - HEADER) == b.size - size - HEADER;
    } else {
      assert Wrap(b.size - size - HEADER) == b.size - size - HEADER + WORD;
    }
  }

  // ---------------------------------------------------------------- live blocks apart

  /** Two live blocks never overlap, and every live block lies inside the heap. */
  lemma LiveApart(bs: seq<Block>, i: nat, j: nat)
    requires WellFormed(bs) && i < j < |bs|
    ensures End(bs[i]) <= bs[j].addr && bs[0].addr <= bs[i].addr && End(bs[j]) <= End(bs[|bs| - 1])
  {
    Ordered(bs, i, j);
    if 0 < i {
      Ordered(bs, 0, i);
    }
    if j < |bs| - 1 {
      Ordered(bs, j, |bs| - 1);
    }
  }

  // ---------------------------------------------------------------- reallocate and runs

  /** Moving an allocation exchanges its block for one of at least the new size; others stay. */
  lemma ReallocateKeeps(bs: seq<Block>, i: nat, size: nat, test: Test := Compiled) returns (b: Block)
    requires WellFormed(bs) && i < |bs| && bs[i].taken && size > 0
    requires Allocate(bs, size, test).outcome.Given?
    ensures var a := Allocate(bs, size, test);
            var r := Reallocate(bs, Pointer(bs[i]), size, test);
            && r.outcome == a.outcome && WellFormed(r.blocks) && r.blocks[0].addr == bs[0].addr
            && Gains(bs, a.blocks, b, r.outcome.ptr, size) && b != bs[i]
            && Live(r.blocks) == Live(bs) + {b} - {bs[i]}
            && FindPointer(a.blocks, Pointer(bs[i])).Some?
               && a.blocks[FindPointer(a.blocks, Pointer(bs[i])).value] == bs[i]
  {
    var a := Allocate(bs, size, test);
    b := AllocateKeeps(bs, size, test);
    PointerIs(bs, i);
    assert bs[i] in Live(bs);
    assert bs[i] in Live(a.blocks);
    var k :| 0 <= k < |a.blocks| && a.blocks[k] == bs[i];
    PointerIs(a.blocks, k);
    FreeKeeps(a.blocks, k);
  }

  lemma FreePointerKeeps(bs: seq<Block>, ptr: nat)
    requires WellFormed(bs)
    ensures WellFormed(FreePointer(bs, ptr)) && FreePointer(bs, ptr)[0].addr == bs[0].addr
  {
    if FindPointer(bs, ptr).Some? {
      FreeKeeps(bs, FindPointer(bs, ptr).value);
    }
  }

  /**
   * Reallocating a block already freed: what comes back is live if and only if the allocation did
   * not choose that very block, since otherwise the block is freed again. Nothing else stops being live.
   */
  lemma ReallocateFreedIff(bs: seq<Block>, i: nat, size: nat) returns (b: Block)
    requires WellFormed(bs) && i < |bs| && !bs[i].taken && size > 0 && Allocate(bs, size).outcome.Given?
    ensures var r := Reallocate(bs, Pointer(bs[i]), size);
            && WellFormed(r.blocks) && Gains(bs, Allocate(bs, size).blocks, b, r.outcome.ptr, size)
            && Live(r.blocks) == (if FirstFit(Searched(bs, size), size) == Some(i) then Live(bs) else Live(bs) + {b})
  {
    b := AllocateKeeps(bs, size);
    var a := Allocate(bs, size).blocks;
    assert NamesBlock(bs, Pointer(bs[i]));
    var f := GivenAt(bs, size);
    FreePointerKeeps(a, Pointer(bs[i]));
    if f == i {
      GainFreed(bs, a, b);
    } else {
      AddressesApart(bs, i, f);
      GainElsewhere(bs, i, a, b);
    }
  }

  /** The pointer handed out names the block the search ended at. */
  lemma GivenAt(bs: seq<Block>, size: nat) returns (f: nat)
    requires bs != [] && size > 0 && Allocate(bs, size).outcome.Given?
    ensures FirstFit(Searched(bs, size), size) == Some(f)
    ensures f < |bs| && Allocate(bs, size).outcome.ptr == Pointer(bs[f])
  {
    f := FirstFit(Searched(bs, size), size).value;
  }

  lemma GainElsewhere(bs: seq<Block>, i: nat, a: seq<Block>, b: Block)
    requires Tiles(bs) && i < |bs| && !bs[i].taken && Live(a) == Live(bs) + {b} && b.addr != bs[i].addr
    ensures FreePointer(a, Pointer(bs[i])) == a
  {
    assert forall c :: c in Live(a) && c !in Live(bs) ==> c == b;
    NoLiveAt(bs, i, a);
  }

  lemma GainFreed(bs: seq<Block>, a: seq<Block>, b: Block)
    requires WellFormed(a) && b.taken && b !in Live(bs) && Live(a) == Live(bs) + {b}
    ensures Live(FreePointer(a, Pointer(b))) == Live(bs)
  {
    assert b in Live(a);
    var q :| 0 <= q < |a| && a[q] == b;
    PointerIs(a, q);
    FreeKeeps(a, q);
  }

  lemma AddressesApart(bs: seq<Block>, i: nat, j: nat)
    requires Tiles(bs) && i < |bs| && j < |bs| && i != j
    ensures bs[i].addr != bs[j].addr
  {
    if i < j {
      Ordered(bs, i, j);
    } else {
      Ordered(bs, j, i);
    }
  }

  /** A free block's pointer is not live where only other blocks are. */
  lemma NoLiveAt(bs: seq<Block>, i: nat, a: seq<Block>)
    requires Tiles(bs) && i < |bs| && !bs[i].taken
    requires forall b :: b in Live(a) && b !in Live(bs) ==> b.addr != bs[i].addr
    ensures FindPointer(a, Pointer(bs[i])) == None
  {
    forall k | 0 <= k < |a| && a[k].taken
      ensures Pointer(a[k]) != Pointer(bs[i])
    {
      assert a[k] in Live(a);
      if a[k] in Live(bs) {
        var j :| 0 <= j < |bs| && bs[j] == a[k];
        AddressesApart(bs, i, j);
      }
    }
  }

  /**
   * A pointer to no block is reallocated by a plain allocation, and freeing one that is not live
   * changes no block; a request of no bytes gets NULL and changes nothing.
   */
  lemma ElsewherePointers(bs: seq<Block>, ptr: nat, size: u32)
    requires bs != []
    ensures (forall i :: 0 <= i < |bs| ==> bs[i].addr + 16 != ptr) ==>
              Step(bs, Resize(ptr, size)) == Step(bs, Alloc(size))
    ensures (forall i :: 0 <= i < |bs| && bs[i].taken ==> bs[i].addr + 16 != ptr) ==>
              Step(bs, Release(ptr)) == Result(Given(0), bs)
    ensures Step(bs, Alloc(0)) == Result(Given(0), bs)
  {
  }

  lemma StepKeeps(bs: seq<Block>, op: HeapOp, test: Test := Compiled)
    requires WellFormed(bs) && Step(bs, op, test).outcome.Given?
    ensures WellFormed(Step(bs, op, test).blocks) && Step(bs, op, test).blocks[0].addr == bs[0].addr
  {
    match op {
      case Alloc(size) =>
        if size > 0 {
          var b := AllocateKeeps(bs, size, test);
        }
      case Release(ptr) =>
        FreePointerKeeps(bs, ptr);
      case Resize(ptr, size) =>
        if size > 0 {
          var b := AllocateKeeps(bs, size, test);
        }
        FreePointerKeeps(Allocate(bs, size, test).blocks, ptr);
    }
  }

  /**
   * The heap stays well formed over every run of allocations, frees and reallocations that return:
   * with the intended split test always, with the compiled one as long as no header runs past its block.
   */
  lemma {:induction false} RunKeeps(bs: seq<Block>, ops: seq<HeapOp>, test: Test := Compiled)
    requires WellFormed(bs) && Completes(bs, ops, test)
    ensures WellFormed(Run(bs, ops, test)) && Run(bs, ops, test)[0].addr == bs[0].addr
    decreases |ops|
  {
    if ops != [] {
      StepKeeps(bs, ops[0], test);
      RunKeeps(Step(bs, ops[0], test).blocks, ops[1..], test);
    }
  }

  lemma FreshWellFormed(start: nat)
    requires 0 < start < WORD - PAGE_SIZE
    ensures WellFormed(Fresh(start)) && Used(Fresh(start)) == HEADER && Total(Fresh(start)) == PAGE_SIZE
  {
    SomeFree(Fresh(start), 0);
    UsedOne(Fresh(start)[0]);
  }
}
