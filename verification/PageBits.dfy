/** The physical page bitmap of TomatKernel/core/memory/paging.c as a set of free pages. */
module PageBits {
  import opened Words

  const PAGE_COUNT: nat := 1024 * 1024
  const BITMAP_SIZE_BYTES: nat := 131072
  const LOW_BYTES: nat := 65536    // bytes a 16-bit first_free can reach
  const LOW_PAGES: nat := 524288   // pages those bytes describe

  // ---------------------------------------------------------------- one byte

  /** `1 << i` */
  function Mask(i: nat): bv8
    requires i < 8
  {
    match i
    case 0 => 1
    case 1 => 2
    case 2 => 4
    case 3 => 8
    case 4 => 16
    case 5 => 32
    case 6 => 64
    case 7 => 128
  }

  predicate Bit(b: bv8, i: nat)
    requires i < 8
  {
    b & Mask(i) != 0
  }

  function SetBit(b: bv8, i: nat): bv8
    requires i < 8
  {
    b | Mask(i)
  }

  function ClearBit(b: bv8, i: nat): bv8
    requires i < 8
  {
    b & !Mask(i)
  }

  lemma BitSet(b: bv8, i: nat, j: nat)
    requires i < 8 && j < 8
    ensures Bit(SetBit(b, i), j) <==> i == j || Bit(b, j)
  {
  }

  lemma BitClear(b: bv8, i: nat, j: nat)
    requires i < 8 && j < 8
    ensures Bit(ClearBit(b, i), j) <==> i != j && Bit(b, j)
  {
  }

  lemma FullIff(b: bv8)
    ensures b == 0xFF <==> forall i :: 0 <= i < 8 ==> Bit(b, i)
  {
    if forall i :: 0 <= i < 8 ==> Bit(b, i) {
      assert Bit(b, 0) && Bit(b, 1) && Bit(b, 2) && Bit(b, 3) && Bit(b, 4) && Bit(b, 5) && Bit(b, 6) && Bit(b, 7);
    }
  }

  lemma SetThenClear(b: bv8, i: nat)
    requires i < 8 && !Bit(b, i)
    ensures ClearBit(SetBit(b, i), i) == b
  {
  }

  /** Lowest clear bit of a byte that is not full. */
  function FirstZeroBit(b: bv8): (i: nat)
    requires b != 0xFF
    ensures i < 8 && !Bit(b, i) && forall j :: 0 <= j < i ==> Bit(b, j)
  {
    if !Bit(b, 0) then 0 else if !Bit(b, 1) then 1 else if !Bit(b, 2) then 2 else if !Bit(b, 3) then 3
    else if !Bit(b, 4) then 4 else if !Bit(b, 5) then 5 else if !Bit(b, 6) then 6 else 7
  }

  // ---------------------------------------------------------------- pages

  predicate Taken(bits: seq<bv8>, p: nat)
    requires |bits| == BITMAP_SIZE_BYTES && p < PAGE_COUNT
  {
    Bit(bits[p / 8], p % 8)
  }

  function Mark(bits: seq<bv8>, p: nat): (r: seq<bv8>)
    requires |bits| == BITMAP_SIZE_BYTES && p < PAGE_COUNT
    ensures |r| == BITMAP_SIZE_BYTES
  {
    bits[p / 8 := SetBit(bits[p / 8], p % 8)]
  }

  function Unmark(bits: seq<bv8>, p: nat): (r: seq<bv8>)
    requires |bits| == BITMAP_SIZE_BYTES && p < PAGE_COUNT
    ensures |r| == BITMAP_SIZE_BYTES
  {
    bits[p / 8 := ClearBit(bits[p / 8], p % 8)]
  }

  lemma TakenMark(bits: seq<bv8>, p: nat, q: nat)
    requires |bits| == BITMAP_SIZE_BYTES && p < PAGE_COUNT && q < PAGE_COUNT
    ensures Taken(Mark(bits, p), q) <==> p == q || Taken(bits, q)
  {
    if p / 8 == q / 8 {
      BitSet(bits[p / 8], p % 8, q % 8);
    }
  }

  lemma TakenUnmark(bits: seq<bv8>, p: nat, q: nat)
    requires |bits| == BITMAP_SIZE_BYTES && p < PAGE_COUNT && q < PAGE_COUNT
    ensures Taken(Unmark(bits, p), q) <==> p != q && Taken(bits, q)
  {
    if p / 8 == q / 8 {
      BitClear(bits[p / 8], p % 8, q % 8);
    }
  }

  /** Freeing a page just taken gives the bitmap back. */
  lemma UnmarkMark(bits: seq<bv8>, p: nat)
    requires |bits| == BITMAP_SIZE_BYTES && p < PAGE_COUNT && !Taken(bits, p)
    ensures Unmark(Mark(bits, p), p) == bits
  {
    SetThenClear(bits[p / 8], p % 8);
  }

  /** A byte is full exactly when its eight pages are taken. */
  lemma FullByte(bits: seq<bv8>, b: nat)
    requires |bits| == BITMAP_SIZE_BYTES && b < BITMAP_SIZE_BYTES
    ensures bits[b] == 0xFF <==> forall p :: 8 * b <= p < 8 * b + 8 ==> Taken(bits, p)
  {
    FullIff(bits[b]);
    if forall p :: 8 * b <= p < 8 * b + 8 ==> Taken(bits, p) {
      forall i | 0 <= i < 8
        ensures Bit(bits[b], i)
      {
        assert Taken(bits, 8 * b + i);
      }
    }
  }

  // ---------------------------------------------------------------- the free set

  /** Free pages the allocator can ever hand out. */
  ghost function LowFree(bits: seq<bv8>): set<nat>
    requires |bits| == BITMAP_SIZE_BYTES
  {
    set p: nat | p < LOW_PAGES && !Taken(bits, p)
  }

  ghost predicate IsLowestFree(bits: seq<bv8>, p: nat)
    requires |bits| == BITMAP_SIZE_BYTES
  {
    p < LOW_PAGES && !Taken(bits, p) && forall q :: 0 <= q < p ==> Taken(bits, q)
  }

  lemma {:induction false} LowestExists(bits: seq<bv8>, p: nat) returns (q: nat)
    requires |bits| == BITMAP_SIZE_BYTES && p < LOW_PAGES && !Taken(bits, p)
    ensures IsLowestFree(bits, q)
    decreases p
  {
    if r :| 0 <= r < p && !Taken(bits, r) {
      q := LowestExists(bits, r);
    } else {
      q := p;
    }
  }

  /** The page `paging_allocate_new_page` gives out. */
  ghost function Lowest(bits: seq<bv8>): (p: nat)
    requires |bits| == BITMAP_SIZE_BYTES && LowFree(bits) != {}
    ensures IsLowestFree(bits, p)
  {
    HasLowest(bits);
    var p :| IsLowestFree(bits, p);
    p
  }

  lemma HasLowest(bits: seq<bv8>)
    requires |bits| == BITMAP_SIZE_BYTES && LowFree(bits) != {}
    ensures exists p :: IsLowestFree(bits, p)
  {
    var q :| q in LowFree(bits);
    var r := LowestExists(bits, q);
  }

  lemma LowestIs(bits: seq<bv8>, p: nat)
    requires |bits| == BITMAP_SIZE_BYTES && IsLowestFree(bits, p)
    ensures LowFree(bits) != {} && Lowest(bits) == p
  {
    assert p in LowFree(bits);
    var q := Lowest(bits);
    assert q <= p;
  }

  lemma LowFreeMark(bits: seq<bv8>, p: nat)
    requires |bits| == BITMAP_SIZE_BYTES && p < PAGE_COUNT
    ensures LowFree(Mark(bits, p)) == LowFree(bits) - {p}
  {
    forall q: nat | q < LOW_PAGES
      ensures Taken(Mark(bits, p), q) <==> p == q || Taken(bits, q)
    {
      TakenMark(bits, p, q);
    }
  }

  lemma LowFreeUnmark(bits: seq<bv8>, p: nat)
    requires |bits| == BITMAP_SIZE_BYTES && p < PAGE_COUNT
    ensures LowFree(Unmark(bits, p)) == LowFree(bits) + (if p < LOW_PAGES then {p} else {})
  {
    forall q: nat | q < LOW_PAGES
      ensures Taken(Unmark(bits, p), q) <==> p != q && Taken(bits, q)
    {
      TakenUnmark(bits, p, q);
    }
  }

  // ---------------------------------------------------------------- first_free

  /** Every byte below the hint is full. */
  ghost predicate FullBelow(bits: seq<bv8>, firstFree: nat) {
    && |bits| == BITMAP_SIZE_BYTES && firstFree < LOW_BYTES
    && forall b :: 0 <= b < firstFree ==> bits[b] == 0xFF
  }

  /** The scan loop of the allocator ends: some byte a 16-bit index reaches is not full. */
  ghost predicate ScanEnds(bits: seq<bv8>)
    requires |bits| == BITMAP_SIZE_BYTES
  {
    exists b :: 0 <= b < LOW_BYTES && bits[b] != 0xFF
  }

  lemma ScanEndsIff(bits: seq<bv8>)
    requires |bits| == BITMAP_SIZE_BYTES
    ensures ScanEnds(bits) <==> LowFree(bits) != {}
  {
    if ScanEnds(bits) {
      var b :| 0 <= b < LOW_BYTES && bits[b] != 0xFF;
      FullByte(bits, b);
      var p :| 8 * b <= p < 8 * b + 8 && !Taken(bits, p);
      assert p in LowFree(bits);
    }
    if LowFree(bits) != {} {
      var p :| p in LowFree(bits);
      FullByte(bits, p / 8);
      assert bits[p / 8] != 0xFF;
    }
  }

  /** The page taken from byte b by the bit loop. */
  function PageIn(bits: seq<bv8>, b: nat): (p: nat)
    requires |bits| == BITMAP_SIZE_BYTES && b < LOW_BYTES && bits[b] != 0xFF
    ensures p < LOW_PAGES && !Taken(bits, p)
  {
    8 * b + FirstZeroBit(bits[b])
  }

  /** Byte the scan loop stops at, starting from i and wrapping round at 2^16. */
  ghost predicate ScansTo(bits: seq<bv8>, i: nat, b: nat)
    requires |bits| == BITMAP_SIZE_BYTES
  {
    && i < LOW_BYTES && b < LOW_BYTES && bits[b] != 0xFF
    && if i <= b then forall c :: i <= c < b ==> bits[c] == 0xFF
       else (forall c :: i <= c < LOW_BYTES ==> bits[c] == 0xFF) && (forall c :: 0 <= c < b ==> bits[c] == 0xFF)
  }

  /**
   * `paging_allocate_new_page` comes back: with room in the hinted byte it takes a page and the
   * scan must still find a byte with room; otherwise the scan must find one, and the recursive
   * call is in the first case there.
   */
  ghost predicate AllocationReturns(bits: seq<bv8>, firstFree: nat)
    requires |bits| == BITMAP_SIZE_BYTES && firstFree < LOW_BYTES
  {
    if bits[firstFree] != 0xFF then ScanEnds(Mark(bits, PageIn(bits, firstFree)))
    else exists b :: ScansTo(bits, firstFree, b) && ScanEnds(Mark(bits, PageIn(bits, b)))
  }

  lemma ScanTarget(bits: seq<bv8>, i: nat) returns (b: nat)
    requires |bits| == BITMAP_SIZE_BYTES && i < LOW_BYTES && ScanEnds(bits)
    ensures ScansTo(bits, i, b)
  {
    if c :| i <= c < LOW_BYTES && bits[c] != 0xFF {
      b := LowestRoom(bits, i, c);
    } else {
      var c :| 0 <= c < LOW_BYTES && bits[c] != 0xFF;
      b := LowestRoom(bits, 0, c);
    }
  }

  lemma {:induction false} LowestRoom(bits: seq<bv8>, from: nat, c: nat) returns (b: nat)
    requires |bits| == BITMAP_SIZE_BYTES && from <= c < LOW_BYTES && bits[c] != 0xFF
    ensures from <= b <= c && bits[b] != 0xFF && forall d :: from <= d < b ==> bits[d] == 0xFF
    decreases c
  {
    if d :| from <= d < c && bits[d] != 0xFF {
      b := LowestRoom(bits, from, d);
    } else {
      b := c;
    }
  }

  /** The allocator returns exactly when at least two of the pages it can see are free. */
  lemma AllocationReturnsIff(bits: seq<bv8>, firstFree: nat)
    requires |bits| == BITMAP_SIZE_BYTES && firstFree < LOW_BYTES
    ensures AllocationReturns(bits, firstFree)
            <==> exists p, q :: p in LowFree(bits) && q in LowFree(bits) && p != q
  {
    if ScanEnds(bits) {
      var b := firstFree;
      if bits[firstFree] == 0xFF {
        b := ScanTarget(bits, firstFree);
        forall b' | ScansTo(bits, firstFree, b')
          ensures b' == b
        {
          ScansToOne(bits, firstFree, b, b');
        }
      }
      OneMoreFree(bits, PageIn(bits, b));
    } else {
      ScanEndsIff(bits);
    }
  }

  lemma OneMoreFree(bits: seq<bv8>, p: nat)
    requires |bits| == BITMAP_SIZE_BYTES && p in LowFree(bits)
    ensures ScanEnds(Mark(bits, p)) <==> exists q, r :: q in LowFree(bits) && r in LowFree(bits) && q != r
  {
    ScanEndsIff(Mark(bits, p));
    LowFreeMark(bits, p);
    if q, r :| q in LowFree(bits) && r in LowFree(bits) && q != r {
      assert (if q == p then r else q) in LowFree(bits) - {p};
    }
    if q :| q in LowFree(bits) - {p} {
      assert p in LowFree(bits) && q in LowFree(bits) && p != q;
    }
  }

  lemma ScansToOne(bits: seq<bv8>, i: nat, b: nat, b': nat)
    requires |bits| == BITMAP_SIZE_BYTES && ScansTo(bits, i, b) && ScansTo(bits, i, b')
    ensures b == b'
  {
  }
}
