/**
 * heap.c as the code runs: headers in memory linked by address, context fields updated in place.
 * Each method is proved to do to the block list what module HeapBlocks says.
 */
module HeapMachine {
  import opened Words
  import opened HeapBlocks
  import opened HeapProofs

  const HEAP_MAGIC: u32 := 0xFACC0FF
  const NULL: nat := 0

  datatype Header = Header(taken: bool, before: nat, size: nat, magic: u32)

  // ---------------------------------------------------------------- memory

  /** Content of byte x: None if nothing meaningful was stored there. */
  function ByteAt(m: map<nat, u8>, x: nat): Option<u8> {
    if x in m then Some(m[x]) else None
  }

  /** A header written at a destroys the data bytes it covers. */
  function Clobber(m: map<nat, u8>, a: nat): (r: map<nat, u8>)
    ensures forall x: nat :: ByteAt(r, x) == if a <= x < a + HEADER then None else ByteAt(m, x)
  {
    map x | x in m && !(a <= x < a + HEADER) :: m[x]
  }

  /** A data byte stored at x destroys the headers it falls in. */
  function Without(hdr: map<nat, Header>, x: nat): map<nat, Header> {
    map a | a in hdr && !(a <= x < a + HEADER) :: hdr[a]
  }

  ghost predicate InLive(bs: seq<Block>, x: nat) {
    exists i :: LiveAt(bs, i) && InPayload(bs[i], x)
  }

  /** No byte of a live payload differs. */
  ghost predicate PayloadKept(bs: seq<Block>, m: map<nat, u8>, m': map<nat, u8>) {
    forall x: nat :: InLive(bs, x) ==> ByteAt(m', x) == ByteAt(m, x)
  }

  // ---------------------------------------------------------------- headers and blocks

  function Before(bs: seq<Block>, i: nat): nat
    requires i < |bs|
  {
    if i == 0 then NULL else bs[i - 1].addr
  }

  ghost predicate HeaderMatches(hdr: map<nat, Header>, bs: seq<Block>, i: int) {
    && 0 <= i < |bs|
    && bs[i].addr in hdr && hdr[bs[i].addr] == Header(bs[i].taken, Before(bs, i), bs[i].size, HEAP_MAGIC)
  }

  ghost predicate StartsBlock(bs: seq<Block>, a: nat) {
    exists i :: 0 <= i < |bs| && bs[i].addr == a
  }

  predicate MagicAt(hdr: map<nat, Header>, a: nat) {
    a in hdr && hdr[a].magic == HEAP_MAGIC
  }

  /** The headers in memory are those of the block list, and nothing else looks like one. */
  ghost predicate Matches(hdr: map<nat, Header>, bs: seq<Block>) {
    && (forall i :: 0 <= i < |bs| ==> HeaderMatches(hdr, bs, i))
    && (forall a :: MagicAt(hdr, a) ==> StartsBlock(bs, a))
  }

  // ---------------------------------------------------------------- header updates

  /** A header at a covers no byte of a live payload. */
  ghost predicate Outside(bs: seq<Block>, a: nat) {
    forall i, x :: LiveAt(bs, i) && a <= x < a + HEADER ==> !InPayload(bs[i], x)
  }

  lemma ClobberKeeps(bs: seq<Block>, m: map<nat, u8>, a: nat)
    requires Outside(bs, a)
    ensures PayloadKept(bs, m, Clobber(m, a))
  {
    forall x: nat | InLive(bs, x)
      ensures ByteAt(Clobber(m, a), x) == ByteAt(m, x)
    {
      var i :| LiveAt(bs, i) && InPayload(bs[i], x);
    }
  }

  lemma KeptTrans(bs: seq<Block>, m: map<nat, u8>, m': map<nat, u8>, m'': map<nat, u8>)
    requires PayloadKept(bs, m, m') && PayloadKept(bs, m', m'')
    ensures PayloadKept(bs, m, m'')
  {
  }

  lemma HeaderOutside(bs: seq<Block>, k: nat)
    requires Tiles(bs) && k < |bs|
    ensures Outside(bs, bs[k].addr)
  {
    forall i, x | LiveAt(bs, i) && bs[k].addr <= x < bs[k].addr + HEADER
      ensures !InPayload(bs[i], x)
    {
      if i < k {
        Ordered(bs, i, k);
      } else if k < i {
        Ordered(bs, k, i);
      }
    }
  }

  lemma AddressesDiffer(bs: seq<Block>, i: nat, j: nat)
    requires Tiles(bs) && i < j < |bs|
    ensures bs[i].addr < bs[j].addr
  {
    Ordered(bs, i, j);
  }

  /** Changing the taken flag or size of one block in memory is changing it in the list. */
  lemma MatchesUpdate(hdr: map<nat, Header>, bs: seq<Block>, k: nat, b: Block)
    requires Matches(hdr, bs) && Tiles(bs) && k < |bs| && b.addr == bs[k].addr
    ensures Matches(hdr[b.addr := Header(b.taken, Before(bs, k), b.size, HEAP_MAGIC)], bs[k := b])
  {
    var h := hdr[b.addr := Header(b.taken, Before(bs, k), b.size, HEAP_MAGIC)];
    var cs := bs[k := b];
    forall i | 0 <= i < |cs|
      ensures HeaderMatches(h, cs, i)
    {
      assert HeaderMatches(hdr, bs, i);
      if i < k {
        AddressesDiffer(bs, i, k);
      } else if k < i {
        AddressesDiffer(bs, k, i);
      }
    }
    forall a | MagicAt(h, a)
      ensures StartsBlock(cs, a)
    {
      if a != b.addr {
        assert MagicAt(hdr, a);
        var i :| 0 <= i < |bs| && bs[i].addr == a;
        assert cs[i].addr == a;
      } else {
        assert cs[k].addr == a;
      }
    }
  }

  /** h differs from hdr at the given places only. */
  ghost predicate ChangedOnlyAt(hdr: map<nat, Header>, h: map<nat, Header>, places: set<nat>) {
    forall a :: a !in places ==> (a in h <==> a in hdr) && (a in h ==> h[a] == hdr[a])
  }

  /**
   * What two headers that share bytes read as after one of them has been written over the other:
   * `next` the following block's, `upper` the new one. The bytes themselves are not modelled, so
   * everything is proved for any values.
   */
  datatype Smear = Smear(next: Header, upper: Header)

  /** The header a split writes for the upper piece; its size wraps if less than a header is left. */
  function UpperHeader(b: Block, size: nat): Header {
    Header(false, b.addr, Wrap(b.size - size - HEADER), HEAP_MAGIC)
  }

  /** The headers once both pieces of block i have theirs, the lower one not yet marked taken. */
  function CutMap(hdr: map<nat, Header>, bs: seq<Block>, i: nat, size: nat, smear: Smear): map<nat, Header>
    requires i < |bs|
  {
    var b, n, e := bs[i], bs[i].addr + HEADER + size, End(bs[i]);
    var h := hdr[n := UpperHeader(b, size)];
    (if i + 1 < |bs| && n < e < n + HEADER then h[e := smear.next] else h)
      [b.addr := Header(false, Before(bs, i), size, HEAP_MAGIC)]
  }

  /** And once the header found behind the upper piece, if any, has been linked to it. */
  function SplitMap(hdr: map<nat, Header>, bs: seq<Block>, i: nat, size: nat, smear: Smear): map<nat, Header>
    requires i < |bs|
  {
    var b, n, e := bs[i], bs[i].addr + HEADER + size, End(bs[i]);
    var h := CutMap(hdr, bs, i, size, smear);
    if i + 1 == |bs| then h
    else if n == e then h[n := UpperHeader(b, size).(before := n)]
    else if n + HEADER <= e then h[e := Header(bs[i + 1].taken, n, bs[i + 1].size, HEAP_MAGIC)]
    else if smear.next.magic != HEAP_MAGIC then h
    else h[e := smear.next.(before := n)][n := smear.upper]
  }

  lemma MatchesSplit(hdr: map<nat, Header>, bs: seq<Block>, i: nat, size: nat, smear: Smear)
    requires Matches(hdr, bs) && Tiles(bs) && i < |bs| && !bs[i].taken && size + HEADER < bs[i].size < WORD
    ensures Matches(SplitMap(hdr, bs, i, size, smear)[bs[i].addr := Header(true, Before(bs, i), size, HEAP_MAGIC)],
                    bs[..i] + Pieces(bs[i], size) + bs[i + 1..])
  {
    assert UpperHeader(bs[i], size) == Header(false, bs[i].addr, bs[i].size - size - HEADER, HEAP_MAGIC);
    var lower := Header(true, Before(bs, i), size, HEAP_MAGIC);
    MatchesSplitAt(hdr, SplitMap(hdr, bs, i, size, smear)[bs[i].addr := lower], bs, i, size);
  }

  /** h is hdr with the headers a split of block i leaves. */
  ghost predicate SplitAt(hdr: map<nat, Header>, h: map<nat, Header>, bs: seq<Block>, i: nat, size: nat) {
    && i < |bs| && !bs[i].taken && bs[i].size > size + HEADER
    && var b, n, e := bs[i], bs[i].addr + HEADER + size, End(bs[i]);
       && ChangedOnlyAt(hdr, h, if i + 1 < |bs| then {b.addr, n, e} else {b.addr, n})
       && b.addr in h && h[b.addr] == Header(true, Before(bs, i), size, HEAP_MAGIC)
       && n in h && h[n] == Header(false, b.addr, b.size - size - HEADER, HEAP_MAGIC)
       && (i + 1 < |bs| ==> e in h && h[e] == Header(bs[i + 1].taken, n, bs[i + 1].size, HEAP_MAGIC))
  }

  lemma SplitHeader(hdr: map<nat, Header>, h: map<nat, Header>, bs: seq<Block>, i: nat, size: nat, k: nat)
    requires Matches(hdr, bs) && Tiles(bs) && SplitAt(hdr, h, bs, i, size) && k < |bs| + 1
    ensures HeaderMatches(h, bs[..i] + Pieces(bs[i], size) + bs[i + 1..], k)
  {
    var cs := bs[..i] + Pieces(bs[i], size) + bs[i + 1..];
    if k < i {
      assert HeaderMatches(hdr, bs, k);
      Ordered(bs, k, i);
      assert cs[k] == bs[k] && (k > 0 ==> cs[k - 1] == bs[k - 1]);
    } else if k > i + 2 {
      assert HeaderMatches(hdr, bs, k - 1);
      Ordered(bs, i + 1, k - 1);
      assert cs[k] == bs[k - 1] && cs[k - 1] == bs[k - 2];
    }
  }

  lemma MatchesSplitAt(hdr: map<nat, Header>, h: map<nat, Header>, bs: seq<Block>, i: nat, size: nat)
    requires Matches(hdr, bs) && Tiles(bs) && SplitAt(hdr, h, bs, i, size)
    ensures Matches(h, bs[..i] + Pieces(bs[i], size) + bs[i + 1..])
  {
    var b, n := bs[i], bs[i].addr + HEADER + size;
    var cs := bs[..i] + Pieces(b, size) + bs[i + 1..];
    forall k | 0 <= k < |cs|
      ensures HeaderMatches(h, cs, k)
    {
      SplitHeader(hdr, h, bs, i, size, k);
    }
    forall a | MagicAt(h, a)
      ensures StartsBlock(cs, a)
    {
      if a == n {
        assert cs[i + 1].addr == a;
      } else if a == b.addr {
        assert cs[i].addr == a;
      } else if i + 1 < |bs| && a == End(b) {
        assert cs[i + 2].addr == a;
      } else {
        assert MagicAt(hdr, a);
        var k :| 0 <= k < |bs| && bs[k].addr == a;
        assert cs[if k < i then k else k + 1] == bs[k];
      }
    }
  }

  /** The writes of one merge step, as one change of the header map. */
  lemma MatchesJoin(hdr: map<nat, Header>, h: map<nat, Header>, bs: seq<Block>, i: nat)
    requires Matches(hdr, bs) && Tiles(bs) && i + 1 < |bs|
    requires var b, c := bs[i], bs[i + 1];
             && ChangedOnlyAt(hdr, h, if i + 2 < |bs| then {b.addr, c.addr, End(c)} else {b.addr, c.addr})
             && b.addr in h && h[b.addr] == Header(b.taken, Before(bs, i), b.size + HEADER + c.size, HEAP_MAGIC)
             && !MagicAt(h, c.addr)
             && (i + 2 < |bs| ==>
                   End(c) in h && h[End(c)] == Header(bs[i + 2].taken, b.addr, bs[i + 2].size, HEAP_MAGIC))
    ensures Matches(h, Join(bs, i))
  {
    var b, c := bs[i], bs[i + 1];
    var cs := Join(bs, i);
    forall k | 0 <= k < |cs|
      ensures HeaderMatches(h, cs, k)
    {
      if k < i {
        assert HeaderMatches(hdr, bs, k);
        Ordered(bs, k, i);
        Ordered(bs, k, i + 1);
        assert cs[k] == bs[k] && (k > 0 ==> cs[k - 1] == bs[k - 1]);
      } else if k > i + 1 {
        assert HeaderMatches(hdr, bs, k + 1);
        Ordered(bs, i + 2, k + 1);
        assert cs[k] == bs[k + 1] && cs[k - 1] == bs[k];
      }
    }
    forall a | MagicAt(h, a)
      ensures StartsBlock(cs, a)
    {
      if a == b.addr {
        assert cs[i].addr == a;
      } else if i + 2 < |bs| && a == End(c) {
        assert cs[i + 1].addr == a;
      } else {
        assert MagicAt(hdr, a);
        var k :| 0 <= k < |bs| && bs[k].addr == a;
        assert cs[if k < i then k else k - 1] == bs[k];
      }
    }
  }

  /** Data stored in a live payload touches no header of a block. */
  lemma MatchesStore(hdr: map<nat, Header>, bs: seq<Block>, x: nat)
    requires Matches(hdr, bs) && Tiles(bs) && InLive(bs, x)
    ensures Matches(Without(hdr, x), bs)
  {
    var h := Without(hdr, x);
    var j :| LiveAt(bs, j) && InPayload(bs[j], x);
    forall i | 0 <= i < |bs|
      ensures HeaderMatches(h, bs, i)
    {
      assert HeaderMatches(hdr, bs, i);
      HeaderOutside(bs, i);
    }
    forall a | MagicAt(h, a)
      ensures StartsBlock(bs, a)
    {
      assert MagicAt(hdr, a);
    }
  }

  // ---------------------------------------------------------------- a split with less than a header to spare

  /** The context fields and the headers agree on the blocks bs. */
  ghost predicate Describes(hdr: map<nat, Header>, start: nat, size: int, top: nat, bs: seq<Block>) {
    WellFormed(bs) && Matches(hdr, bs) && start == bs[0].addr && size == Total(bs) && top == bs[|bs| - 1].addr
  }

  /** `top_block` after a split of block i. */
  function TopAfter(bs: seq<Block>, i: nat, size: nat): nat
    requires i < |bs|
  {
    var n := bs[i].addr + HEADER + size;
    if n > bs[|bs| - 1].addr then n else bs[|bs| - 1].addr
  }

  /** hdr after block i of bs was handed out for `size` bytes with less than a header to spare. */
  ghost predicate TornFrom(hdr: map<nat, Header>, h: map<nat, Header>, bs: seq<Block>, i: nat, size: nat,
                           smear: Smear) {
    && WellFormed(bs) && Matches(hdr, bs) && i < |bs| && !bs[i].taken && 0 < size <= bs[i].size < size + HEADER
    && h == SplitMap(hdr, bs, i, size, smear)[bs[i].addr := Header(true, Before(bs, i), size, HEAP_MAGIC)]
  }

  /** Any description of the torn heap agrees with the old one up to block i. */
  lemma {:induction false} TornPrefix(hdr: map<nat, Header>, h: map<nat, Header>, bs: seq<Block>, i: nat, size: nat,
                                      smear: Smear,
                                      cs: seq<Block>, k: nat)
    requires TornFrom(hdr, h, bs, i, size, smear) && k <= i
    requires Describes(h, bs[0].addr, Total(bs), TopAfter(bs, i, size), cs)
    ensures k < |cs| && cs[k].addr == bs[k].addr
    decreases k
  {
    if k > 0 {
      TornPrefix(hdr, h, bs, i, size, smear, cs, k - 1);
      AddressesDiffer(bs, k - 1, i);
      if i < |bs| - 1 {
        AddressesDiffer(bs, k - 1, |bs| - 1);
      }
      assert HeaderMatches(hdr, bs, k - 1) && HeaderMatches(h, cs, k - 1);
      assert h[bs[k - 1].addr] == hdr[bs[k - 1].addr];
    }
  }

  /** So its next block is the new one. */
  lemma TornNext(hdr: map<nat, Header>, h: map<nat, Header>, bs: seq<Block>, i: nat, size: nat, smear: Smear,
                 cs: seq<Block>)
    requires TornFrom(hdr, h, bs, i, size, smear)
    requires Describes(h, bs[0].addr, Total(bs), TopAfter(bs, i, size), cs)
    ensures i + 1 < |cs| && cs[i + 1].addr == bs[i].addr + HEADER + size
  {
    TornPrefix(hdr, h, bs, i, size, smear, cs, i);
    if i < |bs| - 1 {
      AddressesDiffer(bs, i, |bs| - 1);
    }
    assert HeaderMatches(h, cs, i);
  }

  lemma FitsWord(cs: seq<Block>, k: nat)
    requires WellFormed(cs) && k < |cs|
    ensures End(cs[k]) < WORD
  {
    if k < |cs| - 1 {
      Ordered(cs, k, |cs| - 1);
    }
  }

  /** With less than a header to spare no block list describes the heap afterwards. */
  lemma TornDescribesNothing(hdr: map<nat, Header>, h: map<nat, Header>, bs: seq<Block>, i: nat, size: nat,
                             smear: Smear, cs: seq<Block>)
    requires TornFrom(hdr, h, bs, i, size, smear)
    ensures !Describes(h, bs[0].addr, Total(bs), TopAfter(bs, i, size), cs)
  {
    if Describes(h, bs[0].addr, Total(bs), TopAfter(bs, i, size), cs) {
      TornNext(hdr, h, bs, i, size, smear, cs);
      FitsWord(cs, i + 1);
      assert HeaderMatches(h, cs, i + 1);
      assert UpperHeader(bs[i], size).size == bs[i].size - size - HEADER + WORD;
      if i + 1 < |bs| && bs[i].size > size && smear.next.magic == HEAP_MAGIC {
        TornBeyond(hdr, h, bs, i, size, smear, cs);
      }
    }
  }

  /** Past two headers that share bytes the `before` links of the old blocks lead elsewhere. */
  lemma TornBeyond(hdr: map<nat, Header>, h: map<nat, Header>, bs: seq<Block>, i: nat, size: nat, smear: Smear,
                   cs: seq<Block>)
    requires TornFrom(hdr, h, bs, i, size, smear) && i + 1 < |bs| && bs[i].size > size && smear.next.magic == HEAP_MAGIC
    requires i + 1 < |cs| && cs[i + 1].addr == bs[i].addr + HEADER + size
    ensures !Describes(h, bs[0].addr, Total(bs), TopAfter(bs, i, size), cs)
  {
    if Describes(h, bs[0].addr, Total(bs), TopAfter(bs, i, size), cs) {
      var n, e := cs[i + 1].addr, End(bs[i]);
      TopAddress(bs, i);
      assert i + 2 < |cs|;
      var a := cs[i + 2].addr;
      assert HeaderMatches(h, cs, i + 2);
      assert MagicAt(hdr, a);
      var j :| 0 <= j < |bs| && bs[j].addr == a;
      assert HeaderMatches(hdr, bs, j);
      if j <= i + 1 {
        if j < i + 1 {
          AddressesDiffer(bs, j, i + 1);
        }
      } else if j > i + 2 {
        AddressesDiffer(bs, i + 1, j - 1);
      }
    }
  }

  /**
   * At an exact fit with a block behind, that block's header, a taken one, becomes a free one whose
   * `before` is itself.
   */
  lemma ExactFitOverwrites(hdr: map<nat, Header>, h: map<nat, Header>, bs: seq<Block>, i: nat, smear: Smear)
    requires i + 1 < |bs| && TornFrom(hdr, h, bs, i, bs[i].size, smear)
    ensures var n := bs[i + 1].addr;
            && n in hdr && hdr[n] == Header(true, bs[i].addr, bs[i + 1].size, HEAP_MAGIC)
            && n in h && h[n] == Header(false, n, WORD - HEADER, HEAP_MAGIC)
  {
    assert HeaderMatches(hdr, bs, i + 1);
    AddressesDiffer(bs, i, i + 1);
  }

  // ---------------------------------------------------------------- the heap context

  class HeapContext {
    var size: nat
    var usedSize: int
    var topBlock: nat
    var start: nat
    var firstFree: nat
    var hdr: map<nat, Header>
    var mem: map<nat, u8>
    ghost var blocks: seq<Block>

    /** Headers, extent and `top_block` agree with a tiling; freeness and accounting aside. */
    ghost predicate Linked()
      reads this`size, this`topBlock, this`start, this`hdr, this`blocks
    {
      && blocks != [] && Tiles(blocks) && Matches(hdr, blocks)
      && start == blocks[0].addr > 0 && size == Total(blocks)
      && topBlock == blocks[|blocks| - 1].addr
      && start + size < WORD
    }

    /** Linked and well formed, with `first_free` the lowest free block. */
    ghost predicate Shaped()
      reads this`size, this`topBlock, this`start, this`firstFree, this`hdr, this`blocks
    {
      && Linked() && WellFormed(blocks)
      && firstFree == blocks[First(blocks, IsFree).value].addr
    }

    /** And `used_size` is all headers plus the payloads handed out. */
    ghost predicate Valid()
      reads this
    {
      Shaped() && usedSize == Used(blocks)
    }

    /** Block i of bs was handed out for `bytes` bytes with less than a header to spare: the exact state left. */
    ghost predicate Torn(hdr0: map<nat, Header>, bs: seq<Block>, used0: int, i: nat, bytes: nat, smear: Smear)
      reads this
    {
      && TornFrom(hdr0, hdr, bs, i, bytes, smear)
      && start == bs[0].addr && size == Total(bs) && topBlock == TopAfter(bs, i, bytes)
      && usedSize == used0 + HEADER + bytes
    }

    /** Some block list describes the heap. */
    ghost predicate Described()
      reads this
    {
      exists bs :: Describes(hdr, start, size, topBlock, bs)
    }

    lemma TornUndescribed(hdr0: map<nat, Header>, bs: seq<Block>, used0: int, i: nat, bytes: nat, smear: Smear)
      requires Torn(hdr0, bs, used0, i, bytes, smear)
      ensures !Described()
    {
      forall cs
        ensures !Describes(hdr, start, size, topBlock, cs)
      {
        TornDescribesNothing(hdr0, hdr, bs, i, bytes, smear, cs);
      }
    }

    constructor (startAddress: nat)
      requires 0 < startAddress < WORD - PAGE_SIZE
      ensures Valid() && blocks == Fresh(startAddress)
    {
      size := PAGE_SIZE;
      start := startAddress;
      firstFree := startAddress;
      usedSize := HEADER;
      hdr := map[startAddress := Header(false, NULL, PAGE_SIZE - HEADER, HEAP_MAGIC)];
      mem := map[];
      topBlock := startAddress;
      blocks := Fresh(startAddress);
      new;
      FreshWellFormed(startAddress);
      FirstIs(blocks, IsFree, 0);
      assert HeaderMatches(hdr, blocks, 0);
      assert blocks[0].addr == startAddress;
      assert forall a :: MagicAt(hdr, a) ==> a == startAddress;
    }

    // -------------------------------------------------------------- walking

    method WriteHeader(a: nat, h: Header)
      requires Outside(blocks, a)
      modifies this`hdr, this`mem
      ensures hdr == old(hdr)[a := h] && PayloadKept(blocks, old(mem), mem)
    {
      ClobberKeeps(blocks, mem, a);
      hdr := hdr[a := h];
      mem := Clobber(mem, a);
    }

    /** `get_next_block`: the address after this block, valid if inside the heap and carrying the magic. */
    function GetNextBlock(from: nat): (nat, bool)
      requires from in hdr
      reads this
    {
      var next := Wrap(from + HEADER + hdr[from].size);
      (next, next < start + size && MagicAt(hdr, next))
    }

    lemma NextIs(i: nat)
      requires Linked() && i < |blocks|
      ensures blocks[i].addr in hdr
      ensures GetNextBlock(blocks[i].addr) == (End(blocks[i]), i + 1 < |blocks|)
      ensures HeaderMatches(hdr, blocks, i) && (i + 1 < |blocks| ==> HeaderMatches(hdr, blocks, i + 1))
    {
      assert HeaderMatches(hdr, blocks, i);
      if i + 1 < |blocks| {
        assert HeaderMatches(hdr, blocks, i + 1);
        LastEnd(blocks, i + 1);
      }
    }

    /** `get_next_free_block`: the lowest free block after this one. */
    method GetNextFreeBlock(from0: nat, ghost i: nat) returns (from: nat, valid: bool, ghost j: nat)
      requires Linked() && i < |blocks| && from0 == blocks[i].addr
      ensures valid ==> i < j < |blocks| && from == blocks[j].addr && !blocks[j].taken
      ensures valid ==> forall k :: i < k < j ==> blocks[k].taken
      ensures !valid ==> forall k :: i < k < |blocks| ==> blocks[k].taken
    {
      NextIs(i);
      var next := GetNextBlock(from0);
      from, valid := next.0, next.1;
      j := i + 1;
      while valid && hdr[from].taken
        invariant i < j <= |blocks| && (valid <==> j < |blocks|)
        invariant valid ==> from == blocks[j].addr && HeaderMatches(hdr, blocks, j)
        invariant forall k :: i < k < j ==> blocks[k].taken
        decreases |blocks| - j
      {
        NextIs(j);
        next := GetNextBlock(from);
        from, valid := next.0, next.1;
        j := j + 1;
      }
    }

    /** The search loop of `heap_allocate`, starting at `first_free`. */
    method Search(bytes: nat) returns (block: nat, valid: bool, ghost j: nat)
      requires Shaped()
      ensures valid ==> FirstFit(blocks, bytes) == Some(j) && j < |blocks| && block == blocks[j].addr
      ensures !valid ==> FirstFit(blocks, bytes) == None
    {
      block := firstFree;
      valid := true;
      j := First(blocks, IsFree).value;
      assert HeaderMatches(hdr, blocks, j);
      while valid
        invariant valid ==> j < |blocks| && block == blocks[j].addr && HeaderMatches(hdr, blocks, j)
        invariant valid ==> forall k :: 0 <= k < j ==> blocks[k].taken || blocks[k].size < bytes
        invariant !valid ==> forall k :: 0 <= k < |blocks| ==> blocks[k].taken || blocks[k].size < bytes
        decreases if valid then |blocks| - j else 0
      {
        if hdr[block].taken {
          block, valid, j := GetNextFreeBlock(block, j);
          assert valid ==> HeaderMatches(hdr, blocks, j);
          continue;
        }
        if hdr[block].size >= bytes {
          FirstIs(blocks, (b: Block) => !b.taken && b.size >= bytes, j);
          return;
        }
        block, valid, j := GetNextFreeBlock(block, j);
        assert valid ==> HeaderMatches(hdr, blocks, j);
      }
    }

    // -------------------------------------------------------------- allocating

    /**
     * A header written at a; one that begins inside it at e, and shares bytes with it, then reads
     * as `shared`.
     */
    method WriteOver(a: nat, h: Header, e: nat, shared: Header)
      requires Outside(blocks, a)
      modifies this`hdr, this`mem
      ensures hdr == if a < e < a + HEADER && e < start + size then old(hdr)[a := h][e := shared] else old(hdr)[a := h]
      ensures PayloadKept(blocks, old(mem), mem)
    {
      WriteHeader(a, h);
      if a < e < a + HEADER && e < start + size {
        hdr := hdr[e := shared];
      }
    }

    /** The headers of the two pieces. */
    method CutHeaders(block: nat, bytes: nat, smear: Smear, ghost i: nat)
      requires Linked() && WellFormed(blocks) && i < |blocks| && block == blocks[i].addr && !blocks[i].taken
      requires 0 < bytes <= blocks[i].size && blocks[i].size != bytes + HEADER
      modifies this`hdr, this`mem
      ensures hdr == CutMap(old(hdr), blocks, i, bytes, smear)
      ensures PayloadKept(blocks, old(mem), mem)
    {
      ghost var m0 := mem;
      NextIs(i);
      SplitOutside(blocks, i, bytes);
      NoHeaderAtEnd(hdr, blocks, i);
      var newBlock := block + HEADER + bytes;
      var end := block + HEADER + hdr[block].size;
      WriteOver(newBlock, Header(false, block, Wrap(hdr[block].size - bytes - HEADER), HEAP_MAGIC), end, smear.next);
      ghost var m1 := mem;
      WriteHeader(block, hdr[block].(size := bytes));
      KeptTrans(blocks, m0, m1, mem);
    }

    /** The link of the header behind the upper piece. */
    method LinkUpper(newBlock: nat, smear: Smear, ghost hdr0: map<nat, Header>, ghost i: nat, ghost bytes: nat)
      requires WellFormed(blocks) && Matches(hdr0, blocks) && start == blocks[0].addr && size == Total(blocks)
      requires i < |blocks| && !blocks[i].taken && 0 < bytes <= blocks[i].size && blocks[i].size != bytes + HEADER
      requires newBlock == blocks[i].addr + HEADER + bytes && hdr == CutMap(hdr0, blocks, i, bytes, smear)
      modifies this`hdr, this`mem
      ensures hdr == SplitMap(hdr0, blocks, i, bytes, smear)
      ensures PayloadKept(blocks, old(mem), mem)
    {
      UpperLeads(hdr0, blocks, i, bytes, smear);
      EndOutside(hdr0, blocks, i, bytes, smear);
      LinkedIs(hdr0, blocks, i, bytes, smear);
      var next := GetNextBlock(newBlock);
      assert next == (End(blocks[i]), MagicAt(hdr, End(blocks[i])) && End(blocks[i]) < start + size);
      if next.1 {
        WriteHeader(next.0, hdr[next.0].(before := newBlock));
        if newBlock < next.0 < newBlock + HEADER {
          hdr := hdr[newBlock := smear.upper];
        }
      }
    }

    /** The header writes of a split. */
    method SplitHeaders(block: nat, bytes: nat, smear: Smear, ghost i: nat)
      requires Linked() && WellFormed(blocks) && i < |blocks| && block == blocks[i].addr && !blocks[i].taken
      requires 0 < bytes <= blocks[i].size && blocks[i].size != bytes + HEADER
      modifies this`hdr, this`mem
      ensures hdr == SplitMap(old(hdr), blocks, i, bytes, smear)
      ensures PayloadKept(blocks, old(mem), mem)
    {
      ghost var hdr0, m0 := hdr, mem;
      CutHeaders(block, bytes, smear, i);
      ghost var m1 := mem;
      LinkUpper(block + HEADER + bytes, smear, hdr0, i, bytes);
      KeptTrans(blocks, m0, m1, mem);
    }

    /** Cutting block i in two, up to marking the lower piece. */
    method Split(block: nat, bytes: nat, smear: Smear, ghost i: nat)
      requires Linked() && WellFormed(blocks) && i < |blocks| && block == blocks[i].addr && !blocks[i].taken
      requires 0 < bytes <= blocks[i].size && blocks[i].size != bytes + HEADER
      modifies this`hdr, this`mem, this`usedSize, this`firstFree, this`topBlock
      ensures usedSize == old(usedSize) + HEADER
      ensures firstFree == if old(firstFree) == block then block + HEADER + bytes else old(firstFree)
      ensures topBlock == TopAfter(blocks, i, bytes)
      ensures hdr == SplitMap(old(hdr), blocks, i, bytes, smear)
      ensures PayloadKept(blocks, old(mem), mem)
    {
      SplitHeaders(block, bytes, smear, i);
      var newBlock := block + HEADER + bytes;
      usedSize := usedSize + HEADER;
      if firstFree == block {
        firstFree := newBlock;
      }
      if newBlock > topBlock {
        topBlock := newBlock;
      }
    }

    /** The split branch of `heap_allocate`. */
    method ClaimSplit(block: nat, bytes: nat, smear: Smear, ghost i: nat)
      requires Linked() && WellFormed(blocks) && i < |blocks| && block == blocks[i].addr && !blocks[i].taken
      requires 0 < bytes <= blocks[i].size && blocks[i].size != bytes + HEADER
      modifies this`hdr, this`mem, this`usedSize, this`firstFree, this`topBlock
      ensures usedSize == old(usedSize) + HEADER + bytes
      ensures firstFree == if old(firstFree) == block then block + HEADER + bytes else old(firstFree)
      ensures topBlock == TopAfter(blocks, i, bytes)
      ensures hdr == SplitMap(old(hdr), blocks, i, bytes, smear)
                     [block := Header(true, Before(blocks, i), bytes, HEAP_MAGIC)]
      ensures PayloadKept(blocks, old(mem), mem)
    {
      ghost var m0 := mem;
      Split(block, bytes, smear, i);
      LowerStands(old(hdr), blocks, i, bytes, smear);
      HeaderOutside(blocks, i);
      ghost var m1 := mem;
      WriteHeader(block, hdr[block].(taken := true));
      KeptTrans(blocks, m0, m1, mem);
      usedSize := usedSize + hdr[block].size;
    }

    /** Handing out the lower piece of block i. */
    method ClaimPart(block: nat, bytes: nat, smear: Smear, ghost i: nat)
      requires Valid() && bytes > 0
      requires i < |blocks| && block == blocks[i].addr && !blocks[i].taken && blocks[i].size > bytes + HEADER
      modifies this
      ensures Valid() && blocks == old(blocks)[..i] + Pieces(old(blocks)[i], bytes) + old(blocks)[i + 1..]
      ensures PayloadKept(old(blocks), old(mem), mem)
    {
      PartDescribed(hdr, blocks, i, bytes, smear);
      ghost var rs := blocks[..i] + Pieces(blocks[i], bytes) + blocks[i + 1..];
      ClaimSplit(block, bytes, smear, i);
      blocks := rs;
    }

    /**
     * Handing out block i, not the last, with less than a header to spare: afterwards no block list
     * describes the heap.
     */
    method ClaimTorn(block: nat, bytes: nat, smear: Smear, ghost i: nat)
      requires Valid() && bytes > 0
      requires i + 1 < |blocks| && block == blocks[i].addr && !blocks[i].taken
      requires bytes <= blocks[i].size < bytes + HEADER
      modifies this
      ensures Torn(old(hdr), old(blocks), old(usedSize), i, bytes, smear)
      ensures PayloadKept(old(blocks), old(mem), mem)
    {
      ClaimSplit(block, bytes, smear, i);
    }

    /** The writes of the split branch where they leave block i: into the next block, or off the heap. */
    method ClaimOver(block: nat, bytes: nat, smear: Smear, ghost i: nat) returns (o: Outcome)
      requires Valid() && bytes > 0
      requires i < |blocks| && block == blocks[i].addr && !blocks[i].taken && bytes <= blocks[i].size < bytes + HEADER
      modifies this
      ensures o == if i + 1 < |old(blocks)| then Corrupted(block + HEADER) else Faulted
      ensures o.Corrupted? ==> Torn(old(hdr), old(blocks), old(usedSize), i, bytes, smear)
      ensures o.Corrupted? ==> PayloadKept(old(blocks), old(mem), mem)
    {
      TopIs(blocks, i);
      if block == topBlock {
        return Faulted;
      }
      ClaimTorn(block, bytes, smear, i);
      o := Corrupted(block + HEADER);
    }

    /** Before block i is handed out whole `first_free` moves on from it; false if no other block is free. */
    method AdvanceFirstFree(block: nat, ghost i: nat) returns (ok: bool)
      requires Valid()
      requires i < |blocks| && block == blocks[i].addr && !blocks[i].taken
      modifies this`firstFree
      ensures var f := First(blocks[i := Claimed(blocks[i])], IsFree);
              ok == f.Some? && (ok ==> firstFree == blocks[f.value].addr)
    {
      ok := true;
      if firstFree == block {
        ghost var j;
        firstFree, ok, j := GetNextFreeBlock(block, i);
        FirstIsHere(blocks, i);
        if ok {
          FirstAfterClaim(blocks, i, j);
        } else {
          NoneLeft(blocks, i);
        }
      } else {
        FirstStays(blocks, i);
      }
    }

    /** Marking block i taken and adding its payload to `used_size`. */
    method MarkTaken(block: nat, ghost i: nat)
      requires Linked() && i < |blocks| && block == blocks[i].addr
      modifies this`hdr, this`mem, this`usedSize, this`blocks
      ensures Linked() && blocks == old(blocks)[i := Claimed(old(blocks)[i])]
      ensures usedSize == old(usedSize) + old(blocks)[i].size
      ensures PayloadKept(old(blocks), old(mem), mem)
    {
      ghost var bs := blocks;
      NextIs(i);
      MatchesUpdate(hdr, bs, i, Claimed(bs[i]));
      HeaderOutside(bs, i);
      WriteHeader(block, hdr[block].(taken := true));
      blocks := bs[i := Claimed(bs[i])];
      usedSize := usedSize + hdr[block].size;
    }

    /** Handing out the whole of block i; false if no free block would be left. */
    method ClaimWhole(block: nat, ghost i: nat) returns (ok: bool)
      requires Valid()
      requires i < |blocks| && block == blocks[i].addr && !blocks[i].taken
      modifies this
      ensures ok <==> First(old(blocks)[i := Claimed(old(blocks)[i])], IsFree).Some?
      ensures ok ==> Valid() && blocks == old(blocks)[i := Claimed(old(blocks)[i])]
      ensures ok ==> PayloadKept(old(blocks), old(mem), mem)
    {
      ok := AdvanceFirstFree(block, i);
      if ok {
        ClaimKeeps(blocks, i, 0);
        MarkTaken(block, i);
      }
    }

    /** The part of `heap_allocate` that hands out block i, which fits. */
    method Claim(block: nat, bytes: nat, smear: Smear, ghost i: nat) returns (o: Outcome)
      requires Valid() && bytes > 0
      requires i < |blocks| && block == blocks[i].addr && !blocks[i].taken && blocks[i].size >= bytes
      modifies this
      ensures o == Place(old(blocks), i, bytes).outcome
      ensures o.Given? ==> Valid() && blocks == Place(old(blocks), i, bytes).blocks
      ensures o.Corrupted? ==> Torn(old(hdr), old(blocks), old(usedSize), i, bytes, smear)
      ensures o.Given? || o.Corrupted? ==> PayloadKept(old(blocks), old(mem), mem)
    {
      NextIs(i);
      BlockInWord(blocks, i);
      SplitTestIff(blocks[i], bytes);
      o := Given(block + HEADER);
      if SplitTest(hdr[block].size, bytes) {
        if hdr[block].size < bytes + HEADER {
          o := ClaimOver(block, bytes, smear, i);
        } else {
          ClaimPart(block, bytes, smear, i);
        }
      } else {
        var ok := ClaimWhole(block, i);
        if !ok {
          o := Panicked;
        }
      }
    }

    /** One page more for the last block. */
    method GrowTop()
      requires Linked() && start + size + PAGE_SIZE < WORD
      modifies this`hdr, this`mem, this`size, this`blocks
      ensures Linked() && blocks == Grown(old(blocks), 1) && size == old(size) + PAGE_SIZE
      ensures PayloadKept(old(blocks), old(mem), mem)
    {
      ghost var l := |blocks| - 1;
      ghost var b := blocks[l].(size := blocks[l].size + PAGE_SIZE);
      NextIs(l);
      MatchesUpdate(hdr, blocks, l, b);
      HeaderOutside(blocks, l);
      WriteHeader(topBlock, hdr[topBlock].(size := hdr[topBlock].size + PAGE_SIZE));
      blocks := blocks[l := b];
      size := size + PAGE_SIZE;
    }

    /**
     * The loop of `expand`: page by page until used plus requested bytes, as a 32-bit sum, stay
     * below the size.
     * False where the next page would lie past the 32-bit address space.
     */
    method GrowPages(bytes: nat) returns (ok: bool, ghost n: nat)
      requires Linked()
      modifies this`hdr, this`mem, this`size, this`blocks
      ensures blocks == Grown(old(blocks), n) && Linked() && PayloadKept(old(blocks), old(mem), mem)
      ensures ok ==> n == PagesNeeded(usedSize, bytes, old(size))
      ensures !ok ==> n < PagesNeeded(usedSize, bytes, old(size)) && start + old(size) + (n + 1) * PAGE_SIZE >= WORD
    {
      ghost var bs, m0, total := blocks, mem, size;
      n := 0;
      NextIs(|bs| - 1);
      var top := topBlock + HEADER + hdr[topBlock].size;
      assert Grown(bs, 0) == bs;
      while Wrap(usedSize + bytes) >= size
        invariant 0 <= n <= PagesNeeded(usedSize, bytes, total)
        invariant blocks == Grown(bs, n) && Linked()
        invariant size == total + n * PAGE_SIZE && top == start + size
        invariant PayloadKept(bs, m0, mem)
        decreases PagesNeeded(usedSize, bytes, total) - n
      {
        if top + PAGE_SIZE >= WORD {
          return false, n;
        }
        LiveGrows(bs, n);
        ghost var m1 := mem;
        GrowTop();
        KeptTrans(bs, m0, m1, mem);
        top := top + PAGE_SIZE;
        n := n + 1;
        assert Grown(Grown(bs, n - 1), 1) == Grown(bs, n);
      }
      ok := true;
    }

    /** `expand`. */
    method Expand(bytes: nat) returns (ok: bool)
      requires Valid()
      modifies this
      ensures ok <==> End(HeapBlocks.Expand(old(blocks), bytes)[|old(blocks)| - 1]) < WORD
      ensures ok ==> Shaped() && blocks == HeapBlocks.Expand(old(blocks), bytes) && usedSize == old(usedSize)
      ensures ok ==> PayloadKept(old(blocks), old(mem), mem)
    {
      ghost var bs := blocks;
      ghost var n;
      ok, n := GrowPages(bytes);
      if ok {
        GrownKeeps(bs, n);
        FirstGrown(bs, n);
      }
    }

    /**
     * `heap_allocate`. The source retries by calling itself after `expand`; as the second `expand`
     * would add nothing (RetryRepeats), a retry that finds nothing would repeat for ever.
     */
    method Allocate(bytes: u32, smear: Smear) returns (o: Outcome)
      requires Valid()
      modifies this
      ensures o == HeapBlocks.Allocate(old(blocks), bytes).outcome
      ensures o.Given? ==> Valid() && blocks == HeapBlocks.Allocate(old(blocks), bytes).blocks
      ensures o.Given? || o.Corrupted? ==> (o.Given? <==> Described())
      ensures o.Corrupted? ==> usedSize == old(usedSize) + HEADER + bytes
      ensures o.Given? || o.Corrupted? ==> PayloadKept(old(blocks), old(mem), mem)
    {
      if bytes == 0 {
        assert Describes(hdr, start, size, topBlock, blocks);
        return Given(NULL);
      }
      ghost var j;
      var block, found;
      block, found, j := Search(bytes);
      if found {
        o := ClaimAt(block, bytes, smear, j);
        return;
      }
      o := GrowAndClaim(bytes, smear);
    }

    /** Claiming the block found, and what that means for the heap. */
    method ClaimAt(block: nat, bytes: nat, smear: Smear, ghost i: nat) returns (o: Outcome)
      requires Valid() && bytes > 0
      requires i < |blocks| && block == blocks[i].addr && !blocks[i].taken && blocks[i].size >= bytes
      modifies this
      ensures o == Place(old(blocks), i, bytes).outcome
      ensures o.Given? ==> Valid() && blocks == Place(old(blocks), i, bytes).blocks
      ensures o.Given? || o.Corrupted? ==> (o.Given? <==> Described())
      ensures o.Corrupted? ==> usedSize == old(usedSize) + HEADER + bytes
      ensures o.Given? || o.Corrupted? ==> PayloadKept(old(blocks), old(mem), mem)
    {
      ghost var hdr0, bs, used0 := hdr, blocks, usedSize;
      o := Claim(block, bytes, smear, i);
      if o.Given? {
        assert Describes(hdr, start, size, topBlock, blocks);
      } else if o.Corrupted? {
        TornUndescribed(hdr0, bs, used0, i, bytes, smear);
      }
    }

    /** The end of `heap_allocate`: nothing fits, so grow and try again. */
    method GrowAndClaim(bytes: nat, smear: Smear) returns (o: Outcome)
      requires Valid() && bytes > 0 && FirstFit(blocks, bytes).None?
      modifies this
      ensures o == HeapBlocks.Allocate(old(blocks), bytes).outcome
      ensures o.Given? ==> Valid() && blocks == HeapBlocks.Allocate(old(blocks), bytes).blocks
      ensures o.Given? || o.Corrupted? ==> (o.Given? <==> Described())
      ensures o.Corrupted? ==> usedSize == old(usedSize) + HEADER + bytes
      ensures o.Given? || o.Corrupted? ==> PayloadKept(old(blocks), old(mem), mem)
    {
      ghost var bs, m0 := blocks, mem;
      var ok := Expand(bytes);
      if !ok {
        return OutOfAddressSpace;
      }
      ghost var j;
      var block, found;
      block, found, j := Search(bytes);
      if !found {
        return Endless;
      }
      ghost var n := PagesNeeded(Used(bs), bytes, Total(bs));
      FitOnlyAtTop(bs, n, bytes);
      GrownKeeps(bs, n);
      LiveGrows(bs, n);
      ghost var m1 := mem;
      o := ClaimAt(block, bytes, smear, j);
      if o.Given? || o.Corrupted? {
        KeptTrans(bs, m0, m1, mem);
      }
    }

    // -------------------------------------------------------------- freeing

    /** One step of merging: block i takes in its free right neighbour. */
    method JoinNextBlock(from: nat, ghost i: nat)
      requires Linked() && i < |blocks| && from == blocks[i].addr && !blocks[i].taken
      modifies this`hdr, this`mem, this`usedSize, this`topBlock, this`blocks
      ensures Linked() && blocks == JoinNext(old(blocks), i) && from == blocks[i].addr
      ensures usedSize == old(usedSize) - (|old(blocks)| - |blocks|) * HEADER
      ensures PayloadKept(old(blocks), old(mem), mem)
    {
      NextIs(i);
      var next := GetNextBlock(from);
      if next.1 && !hdr[next.0].taken {
        SwallowNext(from, next.0, i);
        usedSize := usedSize - HEADER;
      }
    }

    /** Taking in block i + 1. */
    method SwallowNext(from: nat, next: nat, ghost i: nat)
      requires Linked() && i + 1 < |blocks| && from == blocks[i].addr && next == blocks[i + 1].addr
      requires !blocks[i].taken && !blocks[i + 1].taken
      modifies this`hdr, this`mem, this`topBlock, this`blocks
      ensures Linked() && blocks == Join(old(blocks), i)
      ensures PayloadKept(old(blocks), old(mem), mem)
    {
      JoinLinks(blocks, hdr, i);
      JoinExtent(blocks, i);
      JoinHeaders(from, next, i);
      if next == topBlock {
        topBlock := from;
      }
      blocks := Join(blocks, i);
    }

    /** The header writes of one merge step. */
    method JoinHeaders(from: nat, next: nat, ghost i: nat)
      requires Linked() && i + 1 < |blocks| && from == blocks[i].addr && next == blocks[i + 1].addr
      modifies this`hdr, this`mem
      ensures hdr == JoinMap(old(hdr), blocks, i)
      ensures PayloadKept(blocks, old(mem), mem)
    {
      ghost var m0 := mem;
      NextIs(i);
      NextIs(i + 1);
      HeaderOutside(blocks, i);
      HeaderOutside(blocks, i + 1);
      AddressesDiffer(blocks, i, i + 1);
      var after := GetNextBlock(next);
      if after.1 {
        HeaderOutside(blocks, i + 2);
        AddressesDiffer(blocks, i, i + 2);
        AddressesDiffer(blocks, i + 1, i + 2);
        WriteHeader(after.0, hdr[after.0].(before := from));
      }
      ghost var m1 := mem;
      WriteHeader(from, hdr[from].(size := hdr[from].size + HEADER + hdr[next].size));
      KeptTrans(blocks, m0, m1, mem);
      ghost var m2 := mem;
      WriteHeader(next, hdr[next].(size := 0, magic := 0));
      KeptTrans(blocks, m0, m2, mem);
    }

    /** `merge_empty_blocks`, recursing to the left; returns the merged block. */
    method MergeEmptyBlocks(from: nat, ghost i: nat) returns (merged: nat)
      requires Linked() && i < |blocks| && from == blocks[i].addr && !blocks[i].taken
      modifies this`hdr, this`mem, this`usedSize, this`topBlock, this`blocks
      ensures Linked() && blocks == Merge(old(blocks), i)
      ensures merged == blocks[MergeIndex(old(blocks), i)].addr
      ensures usedSize == old(usedSize) - (|old(blocks)| - |blocks|) * HEADER
      ensures PayloadKept(old(blocks), old(mem), mem)
      decreases i
    {
      ghost var bs, m0 := blocks, mem;
      JoinNextBlock(from, i);
      NextIs(i);
      var before := hdr[from].before;
      if i > 0 {
        NextIs(i - 1);
        AddressesDiffer(blocks, 0, i);
        FirstAddress(blocks, i - 1);
      }
      if before != NULL && MagicAt(hdr, before) && !hdr[before].taken {
        ghost var m1 := mem;
        JoinNextLive(bs, i);
        merged := MergeEmptyBlocks(before, i - 1);
        KeptTrans(bs, m0, m1, mem);
      } else {
        merged := from;
      }
    }

    /** Marking block i free and taking its payload off `used_size`. */
    method MarkFree(block: nat, ghost i: nat)
      requires Linked() && i < |blocks| && block == blocks[i].addr
      modifies this`hdr, this`mem, this`usedSize, this`blocks
      ensures Linked() && blocks == Unclaimed(old(blocks), i)
      ensures usedSize == old(usedSize) - old(blocks)[i].size
      ensures PayloadKept(blocks, old(mem), mem)
    {
      ghost var bs := blocks;
      NextIs(i);
      MatchesUpdate(hdr, bs, i, bs[i].(taken := false));
      HeaderOutside(Unclaimed(bs, i), i);
      blocks := Unclaimed(bs, i);
      WriteHeader(block, hdr[block].(taken := false));
      usedSize := usedSize - hdr[block].size;
    }

    /** Marking block i free and merging it with its free neighbours; returns the merged block. */
    method MarkAndMerge(block: nat, ghost i: nat) returns (merged: nat)
      requires Linked() && i < |blocks| && block == blocks[i].addr
      modifies this`hdr, this`mem, this`usedSize, this`topBlock, this`blocks
      ensures Linked() && blocks == HeapBlocks.Free(old(blocks), i)
      ensures merged == blocks[MergeIndex(Unclaimed(old(blocks), i), i)].addr
      ensures usedSize == old(usedSize) - old(blocks)[i].size - (|old(blocks)| - |blocks|) * HEADER
      ensures PayloadKept(Unclaimed(old(blocks), i), old(mem), mem)
    {
      ghost var bs, m0 := blocks, mem;
      MarkFree(block, i);
      ghost var m1 := mem;
      merged := MergeEmptyBlocks(block, i);
      KeptTrans(Unclaimed(bs, i), m0, m1, mem);
    }

    /** The whole of `heap_free` for block i; `first_free` moves down if the merged block is lower. */
    method Release(block: nat, ghost i: nat)
      requires Linked() && i < |blocks| && block == blocks[i].addr
      modifies this
      ensures Linked() && blocks == HeapBlocks.Free(old(blocks), i)
      ensures usedSize == old(usedSize) - old(blocks)[i].size - (|old(blocks)| - |blocks|) * HEADER
      ensures var m := MergeIndex(Unclaimed(old(blocks), i), i);
              firstFree == (if blocks[m].addr < old(firstFree) then blocks[m].addr else old(firstFree))
      ensures PayloadKept(Unclaimed(old(blocks), i), old(mem), mem)
    {
      var merged := MarkAndMerge(block, i);
      if merged < firstFree {
        firstFree := merged;
      }
    }

    /** Giving back block i in a sound heap: sound again, unless the block was free already. */
    method GiveBack(block: nat, ghost i: nat)
      requires Valid() && i < |blocks| && block == blocks[i].addr
      modifies this
      ensures Shaped() && PayloadKept(blocks, old(mem), mem)
      ensures blocks == if old(blocks)[i].taken then HeapBlocks.Free(old(blocks), i) else old(blocks)
      ensures old(blocks)[i].taken ==> Valid()
      ensures !old(blocks)[i].taken ==> usedSize == old(usedSize) - old(blocks)[i].size
    {
      ghost var bs, m0 := blocks, mem;
      Release(block, i);
      if bs[i].taken {
        FreeKeeps(bs, i);
        FirstAfterFree(bs, i, blocks);
        FreeLiveLess(bs, i);
      } else {
        DoubleFree(bs, i);
      }
    }

    /** `get_block`: the block whose payload a pointer names, valid exactly if there is one. */
    method GetBlock(ptr: u32) returns (block: nat, valid: bool, ghost i: nat)
      requires Shaped() && ptr != NULL
      ensures valid ==> i < |blocks| && block == blocks[i].addr && Pointer(blocks[i]) == ptr
      ensures valid ==> block in hdr && hdr[block].size == blocks[i].size
      ensures valid ==> forall j :: 0 <= j < |blocks| && Pointer(blocks[j]) == ptr ==> j == i
      ensures valid ==> FindPointer(blocks, ptr) == if blocks[i].taken then Some(i) else None
      ensures !valid ==> FindPointer(blocks, ptr) == None && forall j :: 0 <= j < |blocks| ==> Pointer(blocks[j]) != ptr
    {
      block := Wrap(ptr - HEADER);
      valid := block < start + size && MagicAt(hdr, block);
      i := 0;
      if valid {
        assert StartsBlock(blocks, block);
        i :| 0 <= i < |blocks| && blocks[i].addr == block;
        LastBlockFits(blocks, i);
        PointerOf(blocks, i, ptr);
        NextIs(i);
      } else {
        NoSuchBlock(hdr, blocks, ptr);
      }
    }

    /**
     * `heap_free`. A live pointer is given back; null and pointers to no block change nothing;
     * freeing a block that is already free leaves the blocks alone but spoils `used_size`.
     */
    method Free(ptr: u32)
      requires Valid()
      modifies this
      ensures Shaped() && blocks == FreePointer(old(blocks), ptr)
      ensures PayloadKept(blocks, old(mem), mem)
      ensures (forall i :: 0 <= i < |old(blocks)| && Pointer(old(blocks)[i]) == ptr ==> old(blocks)[i].taken)
              ==> Valid()
      ensures forall i :: 0 <= i < |old(blocks)| && Pointer(old(blocks)[i]) == ptr && !old(blocks)[i].taken
                ==> usedSize == old(usedSize) - old(blocks)[i].size
      ensures (forall i :: 0 <= i < |old(blocks)| ==> Pointer(old(blocks)[i]) != ptr) ==> unchanged(this)
    {
      if ptr == NULL {
        PointerOf(blocks, 0, ptr);
        return;
      }
      ghost var i;
      var block, valid;
      block, valid, i := GetBlock(ptr);
      if valid {
        GiveBack(block, i);
      }
    }

    // -------------------------------------------------------------- reallocating

    /** Storing one data byte, or a copy of one that was never stored. */
    method StoreByte(x: nat, v: Option<u8>)
      requires Valid() && InLive(blocks, x)
      modifies this`hdr, this`mem
      ensures Valid()
      ensures forall y: nat :: ByteAt(mem, y) == if y == x then v else ByteAt(old(mem), y)
    {
      MatchesStore(hdr, blocks, x);
      hdr := Without(hdr, x);
      mem := match v case Some(byte) => mem[x := byte] case None => mem - {x};
    }

    /** `memcpy` into the payload of live block j; what arrives is the source, unless the target begins inside it. */
    method CopyPayload(dst: nat, src: nat, n: nat, ghost j: nat)
      requires Valid()
      requires n > 0 ==> LiveAt(blocks, j) && Pointer(blocks[j]) == dst && n <= blocks[j].size
      modifies this`hdr, this`mem
      ensures Valid()
      ensures forall x: nat :: !(dst <= x < dst + n) ==> ByteAt(mem, x) == ByteAt(old(mem), x)
      ensures !(src < dst < src + n) ==> Copied(mem, dst, old(mem), src, n)
    {
      var k := 0;
      while k < n
        invariant 0 <= k <= n && Valid()
        invariant forall x: nat :: !(dst <= x < dst + k) ==> ByteAt(mem, x) == ByteAt(old(mem), x)
        invariant !(src < dst < src + n) ==> Copied(mem, dst, old(mem), src, k)
      {
        assert LiveAt(blocks, j) && InPayload(blocks[j], dst + k);
        StoreByte(dst + k, ByteAt(mem, src + k));
        k := k + 1;
      }
    }

    /**
     * `heap_reallocate`: the first min(old size, new size) bytes move to the new block, the old
     * one is given back, and no other live payload changes. A block already freed is freed once more.
     */
    method Reallocate(ptr: u32, bytes: u32, smear: Smear) returns (o: Outcome)
      requires Valid()
      modifies this
      ensures o == HeapBlocks.Reallocate(old(blocks), ptr, bytes).outcome
      ensures o.Given? ==> Shaped() && blocks == HeapBlocks.Reallocate(old(blocks), ptr, bytes).blocks
      ensures o.Given? ==> MovedContents(old(blocks), ptr, o.ptr, bytes, old(mem), mem)
      ensures o.Given?
              && (forall i :: 0 <= i < |old(blocks)| && Pointer(old(blocks)[i]) == ptr ==> old(blocks)[i].taken)
              ==> Valid()
    {
      if ptr == NULL {
        PointerOf(blocks, 0, ptr);
        assert !NamesBlock(blocks, ptr);
        o := Allocate(bytes, smear);
        return;
      }
      ghost var i;
      var block, valid;
      block, valid, i := GetBlock(ptr);
      if !valid {
        o := Allocate(bytes, smear);
        return;
      }
      var copySize := if bytes > hdr[block].size then hdr[block].size else bytes;
      o := Move(ptr, bytes, copySize, smear, i);
    }

    /** The moving part: allocate, copy, free. */
    method Move(ptr: u32, bytes: u32, copySize: nat, smear: Smear, ghost i: nat) returns (o: Outcome)
      requires Valid() && i < |blocks| && Pointer(blocks[i]) == ptr
      requires FindPointer(blocks, ptr) == if blocks[i].taken then Some(i) else None
      requires copySize == if bytes > blocks[i].size then blocks[i].size else bytes
      modifies this
      ensures o == HeapBlocks.Reallocate(old(blocks), ptr, bytes).outcome
      ensures o.Given? ==> Shaped() && blocks == HeapBlocks.Reallocate(old(blocks), ptr, bytes).blocks
      ensures o.Given? ==> MovedContents(old(blocks), ptr, o.ptr, bytes, old(mem), mem)
      ensures o.Given? && old(blocks)[i].taken ==> Valid()
    {
      ghost var bs, m0 := blocks, mem;
      assert NamesBlock(bs, ptr);
      o := Allocate(bytes, smear);
      if !o.Given? {
        return;
      }
      ghost var m1 := mem;
      ghost var m2 := CopyAndFree(o.ptr, ptr, copySize, bs, i, bytes);
      Moved(bs, i, bytes, o.ptr, m0, m1, m2, mem);
    }

    /** Copy n bytes to the new block, then free the old one; m2 is the memory in between. */
    method CopyAndFree(dst: nat, ptr: u32, n: nat, ghost bs: seq<Block>, ghost i: nat, ghost bytes: nat)
      returns (ghost m2: map<nat, u8>)
      requires Valid() && WellFormed(bs) && i < |bs| && Pointer(bs[i]) == ptr && n <= bytes
      requires HeapBlocks.Allocate(bs, bytes) == Result(Given(dst), blocks)
      modifies this
      ensures Shaped() && blocks == FreePointer(old(blocks), ptr)
      ensures CopyLeft(m2, dst, old(mem), ptr, n) && PayloadKept(blocks, m2, mem)
      ensures bs[i].taken ==> Valid()
    {
      ghost var q := NewPlace(bs, bytes);
      CopyPayload(dst, ptr, n, q);
      m2 := mem;
      FreeAfterMove(ptr, bs, i, bytes);
    }

    /** `heap_free` of the pointer that has been moved from block i. */
    method FreeAfterMove(ptr: u32, ghost bs: seq<Block>, ghost i: nat, ghost bytes: nat)
      requires Valid() && WellFormed(bs) && i < |bs| && Pointer(bs[i]) == ptr
      requires HeapBlocks.Allocate(bs, bytes).outcome.Given? && blocks == HeapBlocks.Allocate(bs, bytes).blocks
      modifies this
      ensures Shaped() && blocks == FreePointer(old(blocks), ptr) && PayloadKept(blocks, old(mem), mem)
      ensures bs[i].taken ==> Valid()
    {
      if bs[i].taken {
        ghost var p, q := MovedBlocks(bs, i, bytes);
        LivePointer(blocks, p, ptr);
      }
      Free(ptr);
    }
  }

  /** m' is m with the n bytes at src copied to dst. */
  ghost predicate Copied(m': map<nat, u8>, dst: nat, m: map<nat, u8>, src: nat, n: nat) {
    && (forall x: nat :: dst <= x < dst + n ==> ByteAt(m', x) == ByteAt(m, x - dst + src))
    && (forall x: nat :: !(dst <= x < dst + n) ==> ByteAt(m', x) == ByteAt(m, x))
  }

  /** The first bytes of the old payload are found at the new pointer; all other live payloads are untouched. */
  ghost predicate MovedContents(bs: seq<Block>, ptr: nat, newPtr: nat, bytes: nat, m: map<nat, u8>, m': map<nat, u8>) {
    match FindPointer(bs, ptr)
    case None => PayloadKept(bs, m, m')
    case Some(i) =>
      && (forall x: nat :: newPtr <= x < newPtr + bytes && x < newPtr + bs[i].size ==>
           ByteAt(m', x) == ByteAt(m, x - newPtr + ptr))
      && (forall x: nat :: InLive(bs, x) && !InPayload(bs[i], x) ==> ByteAt(m', x) == ByteAt(m, x))
  }

  /** Place of the new block. */
  lemma NewPlace(bs: seq<Block>, bytes: nat) returns (q: nat)
    requires WellFormed(bs) && HeapBlocks.Allocate(bs, bytes).outcome.Given?
    ensures var a := HeapBlocks.Allocate(bs, bytes);
            && WellFormed(a.blocks)
            && (bytes > 0 ==> LiveAt(a.blocks, q) && Pointer(a.blocks[q]) == a.outcome.ptr
                              && a.blocks[q].size >= bytes && a.blocks[q] !in Live(bs)
                              && Live(a.blocks) == Live(bs) + {a.blocks[q]})
            && (bytes == 0 ==> a.blocks == bs)
  {
    if bytes == 0 {
      q := 0;
    } else {
      var a := HeapBlocks.Allocate(bs, bytes);
      var b := AllocateKeeps(bs, bytes);
      assert b in Live(a.blocks);
      q :| 0 <= q < |a.blocks| && a.blocks[q] == b;
    }
  }

  /** Places of the old and the new block once the new one has been allocated. */
  lemma MovedBlocks(bs: seq<Block>, i: nat, bytes: nat) returns (p: nat, q: nat)
    requires WellFormed(bs) && LiveAt(bs, i) && HeapBlocks.Allocate(bs, bytes).outcome.Given?
    ensures var a := HeapBlocks.Allocate(bs, bytes);
            && WellFormed(a.blocks) && LiveAt(a.blocks, p) && a.blocks[p] == bs[i]
            && FindPointer(a.blocks, Pointer(bs[i])) == Some(p)
            && (bytes > 0 ==> LiveAt(a.blocks, q) && p != q && Pointer(a.blocks[q]) == a.outcome.ptr
                              && a.blocks[q].size >= bytes && a.blocks[q] !in Live(bs)
                              && Live(a.blocks) == Live(bs) + {a.blocks[q]})
  {
    var a := HeapBlocks.Allocate(bs, bytes);
    q := NewPlace(bs, bytes);
    assert bs[i] in Live(bs) && bs[i] in Live(a.blocks);
    p :| 0 <= p < |a.blocks| && a.blocks[p] == bs[i];
    PointerIs(a.blocks, p);
  }

  /** The stages of a move: blocks bs allocated to cs (memory m0 to m1), copied (m2), freed to rs (m3). */
  ghost predicate MoveStages(bs: seq<Block>, i: nat, bytes: nat, cs: seq<Block>, p: nat, q: nat, rs: seq<Block>,
                             newPtr: nat) {
    && Tiles(bs) && LiveAt(bs, i) && Tiles(cs) && LiveAt(cs, p) && cs[p] == bs[i] && Live(bs) <= Live(cs)
    && Live(rs) == Live(cs) - {cs[p]}
    && (bytes > 0 ==> LiveAt(cs, q) && q != p && Pointer(cs[q]) == newPtr && cs[q].size >= bytes && cs[q] !in Live(bs))
  }

  /** What a copy of n bytes leaves of the memory, and what it puts into the target. */
  ghost predicate CopyLeft(m': map<nat, u8>, dst: nat, m: map<nat, u8>, src: nat, n: nat) {
    && (forall x: nat :: !(dst <= x < dst + n) ==> ByteAt(m', x) == ByteAt(m, x))
    && (!(src < dst < src + n) ==> Copied(m', dst, m, src, n))
  }

  lemma Moved(bs: seq<Block>, i: nat, bytes: nat, newPtr: nat,
              m0: map<nat, u8>, m1: map<nat, u8>, m2: map<nat, u8>, m3: map<nat, u8>)
    requires WellFormed(bs) && i < |bs| && HeapBlocks.Allocate(bs, bytes).outcome == Given(newPtr)
    requires FindPointer(bs, Pointer(bs[i])) == if bs[i].taken then Some(i) else None
    requires var n := if bytes > bs[i].size then bs[i].size else bytes; CopyLeft(m2, newPtr, m1, Pointer(bs[i]), n)
    requires PayloadKept(bs, m0, m1)
    requires PayloadKept(FreePointer(HeapBlocks.Allocate(bs, bytes).blocks, Pointer(bs[i])), m2, m3)
    ensures MovedContents(bs, Pointer(bs[i]), newPtr, bytes, m0, m3)
  {
    if bs[i].taken {
      MovedLive(bs, i, bytes, newPtr, m0, m1, m2, m3);
    } else {
      MovedFreed(bs, i, bytes, newPtr, m0, m1, m2, m3);
    }
  }

  /** Moving a live block: its bytes are found at the new place. */
  lemma MovedLive(bs: seq<Block>, i: nat, bytes: nat, newPtr: nat,
                  m0: map<nat, u8>, m1: map<nat, u8>, m2: map<nat, u8>, m3: map<nat, u8>)
    requires WellFormed(bs) && LiveAt(bs, i) && HeapBlocks.Allocate(bs, bytes).outcome == Given(newPtr)
    requires var n := if bytes > bs[i].size then bs[i].size else bytes; CopyLeft(m2, newPtr, m1, Pointer(bs[i]), n)
    requires PayloadKept(bs, m0, m1)
    requires PayloadKept(FreePointer(HeapBlocks.Allocate(bs, bytes).blocks, Pointer(bs[i])), m2, m3)
    ensures MovedContents(bs, Pointer(bs[i]), newPtr, bytes, m0, m3)
  {
    var p, q := MovedBlocks(bs, i, bytes);
    var cs := HeapBlocks.Allocate(bs, bytes).blocks;
    if bytes > 0 && Pointer(bs[i]) < newPtr < End(bs[i]) {
      Apart(cs, p, q, newPtr);
    }
    FreeKeeps(cs, p);
    MovedBytes(bs, i, bytes, cs, p, q, HeapBlocks.Free(cs, p), newPtr, m0, m1, m2, m3);
  }

  /** Moving from a freed block: whatever is copied, and whatever is freed again, no live payload changes. */
  lemma MovedFreed(bs: seq<Block>, i: nat, bytes: nat, newPtr: nat,
                   m0: map<nat, u8>, m1: map<nat, u8>, m2: map<nat, u8>, m3: map<nat, u8>)
    requires WellFormed(bs) && i < |bs| && !bs[i].taken && HeapBlocks.Allocate(bs, bytes).outcome == Given(newPtr)
    requires FindPointer(bs, Pointer(bs[i])) == None
    requires var n := if bytes > bs[i].size then bs[i].size else bytes; CopyLeft(m2, newPtr, m1, Pointer(bs[i]), n)
    requires PayloadKept(bs, m0, m1)
    requires PayloadKept(FreePointer(HeapBlocks.Allocate(bs, bytes).blocks, Pointer(bs[i])), m2, m3)
    ensures MovedContents(bs, Pointer(bs[i]), newPtr, bytes, m0, m3)
  {
    var cs := HeapBlocks.Allocate(bs, bytes).blocks;
    if bytes > 0 {
      var b := MovedFreedBlocks(bs, i, bytes);
      forall x: nat | InLive(bs, x)
        ensures ByteAt(m3, x) == ByteAt(m0, x)
      {
        GainApart(bs, cs, b, x);
        LiveInMore(bs, FreePointer(cs, Pointer(bs[i])), x);
      }
    }
  }

  lemma MovedFreedBlocks(bs: seq<Block>, i: nat, bytes: nat) returns (b: Block)
    requires WellFormed(bs) && i < |bs| && !bs[i].taken && bytes > 0 && HeapBlocks.Allocate(bs, bytes).outcome.Given?
    ensures var a := HeapBlocks.Allocate(bs, bytes);
            && Tiles(a.blocks) && b !in Live(bs) && Live(a.blocks) == Live(bs) + {b}
            && Pointer(b) == a.outcome.ptr && b.size >= bytes
            && Live(bs) <= Live(FreePointer(a.blocks, Pointer(bs[i])))
  {
    b := ReallocateFreedIff(bs, i, bytes);
    var c := AllocateKeeps(bs, bytes);
    assert NamesBlock(bs, Pointer(bs[i]));
  }

  /** A byte live before lies outside the block gained. */
  lemma GainApart(bs: seq<Block>, cs: seq<Block>, b: Block, x: nat)
    requires Tiles(cs) && b !in Live(bs) && Live(cs) == Live(bs) + {b} && InLive(bs, x)
    ensures !InPayload(b, x)
  {
    var j :| LiveAt(bs, j) && InPayload(bs[j], x);
    assert bs[j] in Live(bs) && bs[j] in Live(cs) && b in Live(cs);
    var p :| 0 <= p < |cs| && cs[p] == bs[j];
    var q :| 0 <= q < |cs| && cs[q] == b;
    Apart(cs, p, q, x);
  }

  lemma LiveInMore(bs: seq<Block>, rs: seq<Block>, x: nat)
    requires Live(bs) <= Live(rs) && InLive(bs, x)
    ensures InLive(rs, x)
  {
    var j :| LiveAt(bs, j) && InPayload(bs[j], x);
    assert bs[j] in Live(bs);
    assert bs[j] in Live(rs);
    var k :| 0 <= k < |rs| && rs[k] == bs[j] && rs[k].taken;
    assert LiveAt(rs, k);
  }

  lemma MovedNew(bs: seq<Block>, i: nat, bytes: nat, cs: seq<Block>, p: nat, q: nat, rs: seq<Block>, newPtr: nat,
                 x: nat,
                 m0: map<nat, u8>, m1: map<nat, u8>, m2: map<nat, u8>, m3: map<nat, u8>)
    requires MoveStages(bs, i, bytes, cs, p, q, rs, newPtr)
    requires PayloadKept(bs, m0, m1) && PayloadKept(rs, m2, m3)
    requires Copied(m2, newPtr, m1, Pointer(bs[i]), if bytes > bs[i].size then bs[i].size else bytes)
    requires newPtr <= x < newPtr + bytes && x < newPtr + bs[i].size
    ensures ByteAt(m3, x) == ByteAt(m0, x - newPtr + Pointer(bs[i]))
  {
    StillLive(cs, rs, p, q, x);
    assert InPayload(bs[i], x - newPtr + Pointer(bs[i]));
    assert InLive(bs, x - newPtr + Pointer(bs[i]));
  }

  lemma MovedOther(bs: seq<Block>, i: nat, bytes: nat, cs: seq<Block>, p: nat, q: nat, rs: seq<Block>, newPtr: nat,
                   x: nat,
                   m0: map<nat, u8>, m1: map<nat, u8>, m2: map<nat, u8>, m3: map<nat, u8>)
    requires MoveStages(bs, i, bytes, cs, p, q, rs, newPtr)
    requires PayloadKept(bs, m0, m1) && PayloadKept(rs, m2, m3)
    requires Copied(m2, newPtr, m1, Pointer(bs[i]), if bytes > bs[i].size then bs[i].size else bytes)
    requires InLive(bs, x) && !InPayload(bs[i], x)
    ensures ByteAt(m3, x) == ByteAt(m0, x)
  {
    var j :| LiveAt(bs, j) && InPayload(bs[j], x);
    assert bs[j] in Live(bs);
    assert bs[j] in Live(cs);
    var r :| 0 <= r < |cs| && cs[r] == bs[j];
    StillLive(cs, rs, p, r, x);
    if bytes > 0 {
      Apart(cs, r, q, x);
    }
  }

  lemma MovedBytes(bs: seq<Block>, i: nat, bytes: nat, cs: seq<Block>, p: nat, q: nat, rs: seq<Block>, newPtr: nat,
                   m0: map<nat, u8>, m1: map<nat, u8>, m2: map<nat, u8>, m3: map<nat, u8>)
    requires MoveStages(bs, i, bytes, cs, p, q, rs, newPtr)
    requires PayloadKept(bs, m0, m1) && PayloadKept(rs, m2, m3)
    requires Copied(m2, newPtr, m1, Pointer(bs[i]), if bytes > bs[i].size then bs[i].size else bytes)
    ensures MovedContents(bs, Pointer(bs[i]), newPtr, bytes, m0, m3)
  {
    PointerIs(bs, i);
    forall x: nat | newPtr <= x < newPtr + bytes && x < newPtr + bs[i].size
      ensures ByteAt(m3, x) == ByteAt(m0, x - newPtr + Pointer(bs[i]))
    {
      MovedNew(bs, i, bytes, cs, p, q, rs, newPtr, x, m0, m1, m2, m3);
    }
    forall x: nat | InLive(bs, x) && !InPayload(bs[i], x)
      ensures ByteAt(m3, x) == ByteAt(m0, x)
    {
      MovedOther(bs, i, bytes, cs, p, q, rs, newPtr, x, m0, m1, m2, m3);
    }
  }

  /** A byte of a live block other than the freed one is still live. */
  lemma StillLive(cs: seq<Block>, rs: seq<Block>, p: nat, r: nat, x: nat)
    requires Tiles(cs) && LiveAt(cs, p) && LiveAt(cs, r) && r != p && Live(rs) == Live(cs) - {cs[p]}
    requires InPayload(cs[r], x)
    ensures InLive(rs, x)
  {
    if r < p {
      AddressesDiffer(cs, r, p);
    } else {
      AddressesDiffer(cs, p, r);
    }
    assert cs[r] in Live(rs);
    var k :| 0 <= k < |rs| && rs[k] == cs[r];
    assert LiveAt(rs, k) && InPayload(rs[k], x);
  }

  /** Payloads of different live blocks share no byte. */
  lemma Apart(bs: seq<Block>, i: nat, j: nat, x: nat)
    requires Tiles(bs) && i < |bs| && j < |bs| && i != j && InPayload(bs[i], x)
    ensures !InPayload(bs[j], x)
  {
    if i < j {
      Ordered(bs, i, j);
    } else {
      Ordered(bs, j, i);
    }
  }

  /** Block i not handed out, neighbours not yet looked at. */
  function Unclaimed(bs: seq<Block>, i: nat): seq<Block>
    requires i < |bs|
  {
    bs[i := bs[i].(taken := false)]
  }

  lemma FirstAddress(bs: seq<Block>, i: nat)
    requires Tiles(bs) && i < |bs| && bs[0].addr > 0
    ensures bs[i].addr > 0
  {
    if i > 0 {
      Ordered(bs, 0, i);
    }
  }

  lemma LiveSame(bs: seq<Block>, js: seq<Block>)
    requires Live(bs) <= Live(js)
    ensures forall x: nat :: InLive(bs, x) ==> InLive(js, x)
  {
    forall x: nat | InLive(bs, x)
      ensures InLive(js, x)
    {
      var i :| LiveAt(bs, i) && InPayload(bs[i], x);
      assert bs[i] in Live(js);
      var j :| 0 <= j < |js| && js[j] == bs[i];
      assert LiveAt(js, j);
    }
  }

  lemma JoinNextLive(bs: seq<Block>, i: nat)
    requires i < |bs| && !bs[i].taken
    ensures forall x: nat :: InLive(bs, x) ==> InLive(JoinNext(bs, i), x)
  {
    if i + 1 < |bs| && !bs[i + 1].taken {
      JoinUsed(bs, i);
      LiveSame(bs, Join(bs, i));
    }
  }

  // ---------------------------------------------------------------- which block a pointer names

  lemma LastBlockFits(bs: seq<Block>, i: nat)
    requires WellFormed(bs) && i < |bs|
    ensures bs[i].addr + HEADER < WORD
  {
    if i < |bs| - 1 {
      Ordered(bs, i, |bs| - 1);
    }
  }

  /** Only one block can be behind a pointer. */
  lemma PointerOf(bs: seq<Block>, i: nat, ptr: nat)
    requires WellFormed(bs) && i < |bs| && (Pointer(bs[i]) == ptr || ptr == NULL)
    ensures forall j :: 0 <= j < |bs| && Pointer(bs[j]) == ptr ==> j == i && ptr != NULL
    ensures FindPointer(bs, ptr) == if ptr != NULL && bs[i].taken then Some(i) else None
  {
    forall j | 0 <= j < |bs| && Pointer(bs[j]) == ptr
      ensures j == i
    {
      if j < i {
        Ordered(bs, j, i);
      } else if i < j {
        Ordered(bs, i, j);
      }
    }
    if ptr != NULL && bs[i].taken {
      PointerIs(bs, i);
    } else {
      assert FindPointer(bs, ptr).None?;
    }
  }

  lemma LivePointer(bs: seq<Block>, p: nat, ptr: nat)
    requires WellFormed(bs) && LiveAt(bs, p) && Pointer(bs[p]) == ptr
    ensures forall i :: 0 <= i < |bs| && Pointer(bs[i]) == ptr ==> bs[i].taken
    ensures FreePointer(bs, ptr) == HeapBlocks.Free(bs, p) && Live(HeapBlocks.Free(bs, p)) == Live(bs) - {bs[p]}
  {
    PointerOf(bs, p, ptr);
    FreeKeeps(bs, p);
  }

  lemma NoSuchBlock(hdr: map<nat, Header>, bs: seq<Block>, ptr: u32)
    requires WellFormed(bs) && Matches(hdr, bs) && ptr != NULL
    requires !(Wrap(ptr - HEADER) < bs[0].addr + Total(bs) && MagicAt(hdr, Wrap(ptr - HEADER)))
    ensures forall i :: 0 <= i < |bs| ==> Pointer(bs[i]) != ptr
    ensures FindPointer(bs, ptr) == None
  {
    forall i | 0 <= i < |bs|
      ensures Pointer(bs[i]) != ptr
    {
      assert HeaderMatches(hdr, bs, i);
      LastEnd(bs, i);
      LastBlockFits(bs, i);
      assert Wrap(bs[i].addr) == bs[i].addr;
    }
  }

  // ---------------------------------------------------------------- after a free

  lemma FirstAfterFree(bs: seq<Block>, i: nat, rs: seq<Block>)
    requires WellFormed(bs) && i < |bs| && bs[i].taken && rs == HeapBlocks.Free(bs, i)
    ensures var m := MergeIndex(Unclaimed(bs, i), i);
            var f := bs[First(bs, IsFree).value].addr;
            First(rs, IsFree).Some? && rs[First(rs, IsFree).value].addr == (if rs[m].addr < f then rs[m].addr else f)
  {
    var fs := bs[i := bs[i].(taken := false)];
    Released(bs, i);
    MergePlace(fs, i);
    LowestFree(bs, fs, rs, i, MergeIndex(fs, i));
  }

  lemma LowestFree(bs: seq<Block>, fs: seq<Block>, rs: seq<Block>, i: nat, m: nat)
    requires WellFormed(bs) && i < |bs| && bs[i].taken && fs == bs[i := bs[i].(taken := false)]
    requires m <= i && m < |rs| && rs[..m] == fs[..m] && rs[m].addr == fs[m].addr && !rs[m].taken
    ensures var f := bs[First(bs, IsFree).value].addr;
            First(rs, IsFree).Some? && rs[First(rs, IsFree).value].addr == (if rs[m].addr < f then rs[m].addr else f)
  {
    var f := First(bs, IsFree).value;
    assert forall k :: 0 <= k < m ==> rs[k] == rs[..m][k] == fs[..m][k] == bs[k];
    if m <= f {
      FirstIs(rs, IsFree, m);
      if m < f {
        AddressesDiffer(bs, m, f);
      }
    } else {
      FirstIs(rs, IsFree, f);
      AddressesDiffer(bs, f, m);
    }
  }

  lemma FreeLiveLess(bs: seq<Block>, i: nat)
    requires WellFormed(bs) && i < |bs| && bs[i].taken
    ensures forall x: nat :: InLive(HeapBlocks.Free(bs, i), x) ==> InLive(Unclaimed(bs, i), x)
  {
    Released(bs, i);
    FreeKeeps(bs, i);
    LiveSame(HeapBlocks.Free(bs, i), Unclaimed(bs, i));
  }

  /** Between taken neighbours there is nothing to merge. */
  lemma DoubleFree(bs: seq<Block>, i: nat)
    requires WellFormed(bs) && i < |bs| && !bs[i].taken
    ensures HeapBlocks.Free(bs, i) == bs && Unclaimed(bs, i) == bs
    ensures MergeIndex(bs, i) == i && bs[First(bs, IsFree).value].addr <= bs[i].addr
  {
    assert Unclaimed(bs, i) == bs;
    if First(bs, IsFree).value < i {
      AddressesDiffer(bs, First(bs, IsFree).value, i);
    }
  }

  /** The header map after block i has taken in block i + 1, whose header is wiped. */
  function JoinMap(hdr: map<nat, Header>, bs: seq<Block>, i: nat): map<nat, Header>
    requires i + 1 < |bs|
  {
    var b, c := bs[i], bs[i + 1];
    var h := if i + 2 < |bs| then hdr[End(c) := Header(bs[i + 2].taken, b.addr, bs[i + 2].size, HEAP_MAGIC)] else hdr;
    h[b.addr := Header(b.taken, Before(bs, i), b.size + HEADER + c.size, HEAP_MAGIC)]
     [c.addr := Header(c.taken, b.addr, 0, 0)]
  }

  lemma JoinLinks(bs: seq<Block>, hdr: map<nat, Header>, i: nat)
    requires Tiles(bs) && Matches(hdr, bs) && i + 1 < |bs|
    ensures Matches(JoinMap(hdr, bs, i), Join(bs, i))
  {
    AddressesDiffer(bs, i, i + 1);
    if i + 2 < |bs| {
      AddressesDiffer(bs, i, i + 2);
      AddressesDiffer(bs, i + 1, i + 2);
    }
    MatchesJoin(hdr, JoinMap(hdr, bs, i), bs, i);
  }

  lemma JoinExtent(bs: seq<Block>, i: nat)
    requires Tiles(bs) && i + 1 < |bs|
    ensures var js := Join(bs, i);
            && Tiles(js) && js[0].addr == bs[0].addr && Total(js) == Total(bs)
            && js[|js| - 1].addr == (if i + 2 == |bs| then bs[i].addr else bs[|bs| - 1].addr)
            && (bs[i + 1].addr == bs[|bs| - 1].addr <==> i + 2 == |bs|)
  {
    if i + 2 < |bs| {
      AddressesDiffer(bs, i + 1, |bs| - 1);
    }
    TilesReplace(bs, i, i + 2, [bs[i].(size := bs[i].size + HEADER + bs[i + 1].size)]);
  }

  lemma LiveGrows(bs: seq<Block>, n: nat)
    requires bs != []
    ensures forall x: nat :: InLive(bs, x) ==> InLive(Grown(bs, n), x)
  {
    forall x: nat | InLive(bs, x)
      ensures InLive(Grown(bs, n), x)
    {
      var i :| LiveAt(bs, i) && InPayload(bs[i], x);
      assert LiveAt(Grown(bs, n), i) && InPayload(Grown(bs, n)[i], x);
    }
  }

  lemma FirstGrown(bs: seq<Block>, n: nat)
    requires bs != [] && First(bs, IsFree).Some?
    ensures First(Grown(bs, n), IsFree) == First(bs, IsFree)
  {
    FirstIs(Grown(bs, n), IsFree, First(bs, IsFree).value);
  }

  lemma BlockInWord(bs: seq<Block>, i: nat)
    requires WellFormed(bs) && i < |bs|
    ensures bs[i].size < WORD
  {
    if i < |bs| - 1 {
      Ordered(bs, i, |bs| - 1);
    }
  }

  // ---------------------------------------------------------------- where first_free goes

  lemma FirstIsHere(bs: seq<Block>, i: nat)
    requires WellFormed(bs) && i < |bs| && bs[First(bs, IsFree).value].addr == bs[i].addr
    ensures First(bs, IsFree) == Some(i)
  {
    var f := First(bs, IsFree).value;
    if f < i {
      AddressesDiffer(bs, f, i);
    } else if i < f {
      AddressesDiffer(bs, i, f);
    }
  }

  lemma NoneLeft(bs: seq<Block>, i: nat)
    requires i < |bs| && First(bs, IsFree) == Some(i) && forall k :: i < k < |bs| ==> bs[k].taken
    ensures First(bs[i := Claimed(bs[i])], IsFree).None?
  {
    var rs := bs[i := Claimed(bs[i])];
    assert forall k :: 0 <= k < |rs| ==> !IsFree(rs[k]);
  }

  lemma FirstAfterClaim(bs: seq<Block>, i: nat, j: nat)
    requires i < j < |bs| && First(bs, IsFree) == Some(i) && !bs[j].taken && forall k :: i < k < j ==> bs[k].taken
    ensures First(bs[i := Claimed(bs[i])], IsFree) == Some(j)
  {
    FirstIs(bs[i := Claimed(bs[i])], IsFree, j);
  }

  lemma FirstStays(bs: seq<Block>, i: nat)
    requires WellFormed(bs) && i < |bs| && !bs[i].taken && bs[First(bs, IsFree).value].addr != bs[i].addr
    ensures First(bs[i := Claimed(bs[i])], IsFree) == First(bs, IsFree)
  {
    FirstIs(bs[i := Claimed(bs[i])], IsFree, First(bs, IsFree).value);
  }

  /** After a split the lowest free block is the upper piece, or still the one before. */
  lemma FirstAfterSplit(bs: seq<Block>, i: nat, bytes: nat)
    requires WellFormed(bs) && i < |bs| && !bs[i].taken && bs[i].size > bytes + HEADER
    ensures var rs := bs[..i] + Pieces(bs[i], bytes) + bs[i + 1..];
            var f := bs[First(bs, IsFree).value].addr;
            && First(rs, IsFree).Some?
            && rs[First(rs, IsFree).value].addr == (if f == bs[i].addr then bs[i].addr + HEADER + bytes else f)
            && rs[|rs| - 1].addr == (if i + 1 == |bs| then bs[i].addr + HEADER + bytes else bs[|bs| - 1].addr)
  {
    var rs := bs[..i] + Pieces(bs[i], bytes) + bs[i + 1..];
    var f := First(bs, IsFree).value;
    assert !IsFree(rs[i]) && IsFree(rs[i + 1]);
    assert forall k :: 0 <= k < i ==> rs[k] == bs[k];
    if f == i {
      FirstIs(rs, IsFree, i + 1);
    } else {
      AddressesDiffer(bs, f, i);
      FirstIs(rs, IsFree, f);
    }
  }

  /** The new header of a split covers no live payload, whatever is to spare. */
  lemma SplitOutside(bs: seq<Block>, i: nat, size: nat)
    requires Tiles(bs) && i < |bs| && !bs[i].taken && size <= bs[i].size
    ensures Outside(bs, bs[i].addr + HEADER + size) && Outside(bs, bs[i].addr)
    ensures i + 1 < |bs| ==> Outside(bs, bs[i + 1].addr)
  {
    HeaderOutside(bs, i);
    if i + 1 < |bs| {
      HeaderOutside(bs, i + 1);
    }
    var a := bs[i].addr + HEADER + size;
    forall k, x | LiveAt(bs, k) && a <= x < a + HEADER
      ensures !InPayload(bs[k], x)
    {
      if k < i {
        Ordered(bs, k, i);
      } else if i + 1 < k {
        Ordered(bs, i + 1, k);
      }
    }
  }

  lemma TopIs(bs: seq<Block>, i: nat)
    requires Tiles(bs) && i < |bs|
    ensures bs[i].addr == bs[|bs| - 1].addr <==> i + 1 == |bs|
  {
    if i + 1 < |bs| {
      AddressesDiffer(bs, i, |bs| - 1);
    }
  }

  lemma WrapsBack(a: nat, c: int)
    requires 0 <= a + c < WORD
    ensures Wrap(a + Wrap(c)) == a + c
  {
  }

  /** The upper header leads, by its wrapped size, to where block i ended. */
  lemma UpperLeads(hdr: map<nat, Header>, bs: seq<Block>, i: nat, size: nat, smear: Smear)
    requires WellFormed(bs) && i < |bs| && 0 < size <= bs[i].size && bs[i].size != size + HEADER
    ensures var n := bs[i].addr + HEADER + size;
            var h := CutMap(hdr, bs, i, size, smear);
            n in h && h[n] == UpperHeader(bs[i], size) && Wrap(n + HEADER + h[n].size) == End(bs[i])
  {
    FitsWord(bs, i);
    WrapsBack(bs[i].addr + HEADER + size + HEADER, bs[i].size - size - HEADER);
  }

  /** What stands there then. */
  lemma CutEnd(hdr: map<nat, Header>, bs: seq<Block>, i: nat, size: nat, smear: Smear)
    requires WellFormed(bs) && Matches(hdr, bs) && i < |bs| && 0 < size <= bs[i].size && bs[i].size != size + HEADER
    ensures var n, e := bs[i].addr + HEADER + size, End(bs[i]);
            var h := CutMap(hdr, bs, i, size, smear);
            && (i + 1 < |bs| ==>
                  e in h
                  && h[e] == if n == e then UpperHeader(bs[i], size)
                             else if n + HEADER <= e then hdr[e]
                             else smear.next)
            && (MagicAt(h, e) && e < bs[0].addr + Total(bs)
                <==> i + 1 < |bs| && (n == e || n + HEADER <= e || smear.next.magic == HEAP_MAGIC))
  {
    NoHeaderAtEnd(hdr, bs, i);
  }

  lemma EndOutside(hdr: map<nat, Header>, bs: seq<Block>, i: nat, size: nat, smear: Smear)
    requires WellFormed(bs) && Matches(hdr, bs) && i < |bs| && !bs[i].taken && 0 < size <= bs[i].size
    requires bs[i].size != size + HEADER
    ensures var e, h := End(bs[i]), CutMap(hdr, bs, i, size, smear);
            MagicAt(h, e) && e < bs[0].addr + Total(bs) ==> e in h && Outside(bs, e)
  {
    CutEnd(hdr, bs, i, size, smear);
    SplitOutside(bs, i, size);
  }

  /** Linking that header, if it is valid, is what is left of the split. */
  lemma LinkedIs(hdr: map<nat, Header>, bs: seq<Block>, i: nat, size: nat, smear: Smear)
    requires WellFormed(bs) && Matches(hdr, bs) && i < |bs| && 0 < size <= bs[i].size && bs[i].size != size + HEADER
    ensures var n, e := bs[i].addr + HEADER + size, End(bs[i]);
            var h := CutMap(hdr, bs, i, size, smear);
            SplitMap(hdr, bs, i, size, smear)
            == if !(MagicAt(h, e) && e < bs[0].addr + Total(bs)) then h
               else if n < e < n + HEADER then h[e := h[e].(before := n)][n := smear.upper]
               else h[e := h[e].(before := n)]
  {
    NoHeaderAtEnd(hdr, bs, i);
    CutEnd(hdr, bs, i, size, smear);
  }

  /** The header of the lower piece is not among those that get smeared. */
  lemma LowerStands(hdr: map<nat, Header>, bs: seq<Block>, i: nat, size: nat, smear: Smear)
    requires i < |bs| && 0 < size <= bs[i].size
    ensures bs[i].addr in SplitMap(hdr, bs, i, size, smear)
    ensures SplitMap(hdr, bs, i, size, smear)[bs[i].addr] == Header(false, Before(bs, i), size, HEAP_MAGIC)
  {
  }

  /** A header stands at the end of a block exactly if the block is not the last. */
  lemma NoHeaderAtEnd(hdr: map<nat, Header>, bs: seq<Block>, i: nat)
    requires Matches(hdr, bs) && Tiles(bs) && i < |bs|
    ensures MagicAt(hdr, End(bs[i])) <==> i + 1 < |bs|
    ensures i + 1 < |bs| ==>
              bs[i + 1].addr == End(bs[i]) && HeaderMatches(hdr, bs, i + 1) && End(bs[i]) < bs[0].addr + Total(bs)
    ensures i + 1 == |bs| ==> End(bs[i]) == bs[0].addr + Total(bs)
  {
    if i + 1 < |bs| {
      assert HeaderMatches(hdr, bs, i + 1);
      LastEnd(bs, i + 1);
    } else if MagicAt(hdr, End(bs[i])) {
      var j :| 0 <= j < |bs| && bs[j].addr == End(bs[i]);
      LastEnd(bs, j);
    }
  }

  /** A split with more than a header to spare is described by the list with both pieces. */
  lemma PartDescribed(hdr: map<nat, Header>, bs: seq<Block>, i: nat, bytes: nat, smear: Smear)
    requires WellFormed(bs) && Matches(hdr, bs) && i < |bs| && !bs[i].taken && bs[i].size > bytes + HEADER && bytes > 0
    ensures var rs := bs[..i] + Pieces(bs[i], bytes) + bs[i + 1..];
            var h := SplitMap(hdr, bs, i, bytes, smear)[bs[i].addr := Header(true, Before(bs, i), bytes, HEAP_MAGIC)];
            var f := bs[First(bs, IsFree).value].addr;
            && Describes(h, bs[0].addr, Total(bs), TopAfter(bs, i, bytes), rs)
            && rs[First(rs, IsFree).value].addr == (if f == bs[i].addr then bs[i].addr + HEADER + bytes else f)
            && Used(rs) == Used(bs) + HEADER + bytes
  {
    FirstAfterSplit(bs, i, bytes);
    SplitKeeps(bs, i, bytes);
    BlockInWord(bs, i);
    MatchesSplit(hdr, bs, i, bytes, smear);
    TopAddress(bs, i);
  }

  /** Only the last block can have its split-off part above `top_block`. */
  lemma TopAddress(bs: seq<Block>, i: nat)
    requires Tiles(bs) && i < |bs|
    ensures i + 1 < |bs| ==> End(bs[i]) <= bs[|bs| - 1].addr
  {
    if i + 1 < |bs| {
      Ordered(bs, i, |bs| - 1);
    }
  }

  /** No block starts at or past the end of the heap. */
  lemma LastEnd(bs: seq<Block>, i: nat)
    requires Tiles(bs) && i < |bs|
    ensures bs[i].addr < bs[0].addr + Total(bs)
  {
    if i < |bs| - 1 {
      Ordered(bs, i, |bs| - 1);
    }
  }
}
