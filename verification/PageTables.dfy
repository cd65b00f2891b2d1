/**
 * Page directories and tables of TomatKernel/core/memory/paging.c (32-bit paging, section 4.3 of
 * the Intel 64 and IA-32 Architectures Software Developer's Manual, Volume 3A), living in pages
 * taken from the bitmap. A virtual page number is directory index * 1024 + table index.
 */
module PageTables {
  import opened Words
  import opened PageBits

  const ENTRIES: nat := 1024

  type frame = x: int | 0 <= x < 1024 * 1024

  datatype Entry = Entry(present: bool, readWrite: bool, user: bool, address: frame)

  /** Physical pages that hold entries, and the allocation bitmap. */
  datatype Memory = Memory(bits: seq<bv8>, phys: map<nat, seq<Entry>>)

  function ZeroPage(): (r: seq<Entry>)
    ensures |r| == ENTRIES && forall i :: 0 <= i < ENTRIES ==> !r[i].present
  {
    seq(ENTRIES, i => Entry(false, false, false, 0))
  }

  predicate IsTable(m: Memory, p: nat) {
    p in m.phys && |m.phys[p]| == ENTRIES
  }

  // ---------------------------------------------------------------- reading

  /** Every present directory entry leads to a table page. */
  ghost predicate Readable(m: Memory, d: nat) {
    && |m.bits| == BITMAP_SIZE_BYTES && d < PAGE_COUNT && IsTable(m, d)
    && forall i :: 0 <= i < ENTRIES && m.phys[d][i].present ==> IsTable(m, m.phys[d][i].address)
  }

  predicate HasTable(m: Memory, d: nat, i: int)
    requires IsTable(m, d)
  {
    0 <= i < ENTRIES && m.phys[d][i].present
  }

  function TableOf(m: Memory, d: nat, i: int): frame
    requires IsTable(m, d) && 0 <= i < ENTRIES
  {
    m.phys[d][i].address
  }

  predicate HasLeaf(m: Memory, d: nat, i: int, j: int)
    requires IsTable(m, d)
  {
    && HasTable(m, d, i) && IsTable(m, TableOf(m, d, i))
    && 0 <= j < ENTRIES && m.phys[TableOf(m, d, i)][j].present
  }

  function LeafOf(m: Memory, d: nat, i: int, j: int): frame
    requires IsTable(m, d) && HasLeaf(m, d, i, j)
  {
    m.phys[TableOf(m, d, i)][j].address
  }

  /** Frame a virtual page is mapped to. */
  function Translate(m: Memory, d: nat, vp: nat): Option<nat>
    requires IsTable(m, d) && vp < PAGE_COUNT
  {
    if HasLeaf(m, d, vp / ENTRIES, vp % ENTRIES) then Some(LeafOf(m, d, vp / ENTRIES, vp % ENTRIES)) else None
  }

  /** What a process may do with a page besides reading it in kernel mode. */
  datatype Rights = Rights(user: bool, write: bool)

  /** Directory entry and table entry both have to allow it. */
  function RightsOf(m: Memory, d: nat, vp: nat): Option<Rights>
    requires IsTable(m, d) && vp < PAGE_COUNT
  {
    if HasLeaf(m, d, vp / ENTRIES, vp % ENTRIES) then
      var directory := m.phys[d][vp / ENTRIES];
      var leaf := m.phys[directory.address][vp % ENTRIES];
      Some(Rights(directory.user && leaf.user, directory.readWrite && leaf.readWrite))
    else None
  }

  /** No directory entry withholds what the table entries grant. */
  ghost predicate Open(m: Memory, d: nat) {
    IsTable(m, d) && forall i :: HasTable(m, d, i) ==> m.phys[d][i].user && m.phys[d][i].readWrite
  }

  // ---------------------------------------------------------------- soundness

  /** The directory, its tables and its leaves are distinct pages, all marked taken, none of them page 0. */
  ghost predicate Sound(m: Memory, d: nat) {
    && Readable(m, d) && d != 0 && Taken(m.bits, 0) && Taken(m.bits, d)
    && (forall i :: HasTable(m, d, i) ==>
         TableOf(m, d, i) != d && TableOf(m, d, i) != 0 && Taken(m.bits, TableOf(m, d, i)))
    && (forall i, k :: HasTable(m, d, i) && HasTable(m, d, k) && i != k ==> TableOf(m, d, i) != TableOf(m, d, k))
    && (forall i, j :: HasLeaf(m, d, i, j) ==>
         LeafOf(m, d, i, j) != d && LeafOf(m, d, i, j) != 0 && Taken(m.bits, LeafOf(m, d, i, j)))
    && (forall i, j, k :: HasLeaf(m, d, i, j) && HasTable(m, d, k) ==> LeafOf(m, d, i, j) != TableOf(m, d, k))
    && (forall i, j, k, l :: HasLeaf(m, d, i, j) && HasLeaf(m, d, k, l) && (i != k || j != l) ==>
         LeafOf(m, d, i, j) != LeafOf(m, d, k, l))
  }

  // ---------------------------------------------------------------- mapping

  /** A missing table is put into a fresh, zeroed page. */
  ghost function AddTable(m: Memory, d: nat, i: nat): (r: Memory)
    requires Readable(m, d) && i < ENTRIES && (!HasTable(m, d, i) ==> LowFree(m.bits) != {})
    ensures |r.bits| == BITMAP_SIZE_BYTES
  {
    if HasTable(m, d, i) then m
    else
      var t := Lowest(m.bits);
      var ph := m.phys[t := ZeroPage()];
      Memory(Mark(m.bits, t), ph[d := ph[d][i := Entry(true, true, true, t)]])
  }

  /** The page a table entry already uses is freed. */
  function ReleaseLeaf(m: Memory, t: nat, j: nat): (r: seq<bv8>)
    requires |m.bits| == BITMAP_SIZE_BYTES && IsTable(m, t) && j < ENTRIES
    ensures |r| == BITMAP_SIZE_BYTES
  {
    if m.phys[t][j].present then Unmark(m.bits, m.phys[t][j].address) else m.bits
  }

  function PutLeaf(m: Memory, t: nat, j: nat, bits: seq<bv8>, e: Entry): Memory
    requires IsTable(m, t) && j < ENTRIES
  {
    Memory(bits, m.phys[t := m.phys[t][j := e]])
  }

  /** `paging_map` once the table exists: release, then take a fresh page. */
  ghost function MapLeaf(m: Memory, t: nat, j: nat): Memory
    requires |m.bits| == BITMAP_SIZE_BYTES && IsTable(m, t) && j < ENTRIES && LowFree(ReleaseLeaf(m, t, j)) != {}
  {
    var bits := ReleaseLeaf(m, t, j);
    var f := Lowest(bits);
    PutLeaf(m, t, j, Mark(bits, f), Entry(true, true, true, f))
  }

  /** `paging_map_identity` once the table exists. */
  function IdentityLeaf(m: Memory, t: nat, j: nat, p: frame, user: bool, readWrite: bool): Memory
    requires |m.bits| == BITMAP_SIZE_BYTES && IsTable(m, t) && j < ENTRIES
  {
    PutLeaf(m, t, j, ReleaseLeaf(m, t, j), Entry(true, readWrite, user, p))
  }

  /** `paging_map`. */
  ghost function Map(m: Memory, d: nat, vp: nat): Memory
    requires Sound(m, d) && vp < PAGE_COUNT && Mappable(m, d, vp)
  {
    var i := vp / ENTRIES;
    MapRoom(m, d, vp);
    var a := AddTable(m, d, i);
    MapLeaf(a, TableOf(a, d, i), vp % ENTRIES)
  }

  /** Each page the mapping takes leaves another free, as the allocator needs; a remapping first gives one back. */
  ghost predicate Mappable(m: Memory, d: nat, vp: nat)
    requires Sound(m, d) && vp < PAGE_COUNT
  {
    if HasTable(m, d, vp / ENTRIES)
    then |LowFree(ReleaseLeaf(m, TableOf(m, d, vp / ENTRIES), vp % ENTRIES))| >= 2
    else |LowFree(m.bits)| >= 3
  }

  lemma MapRoom(m: Memory, d: nat, vp: nat)
    requires Sound(m, d) && vp < PAGE_COUNT && Mappable(m, d, vp)
    ensures !HasTable(m, d, vp / ENTRIES) ==> LowFree(m.bits) != {}
    ensures var a := AddTable(m, d, vp / ENTRIES);
            && Sound(a, d) && HasTable(a, d, vp / ENTRIES)
            && |LowFree(ReleaseLeaf(a, TableOf(a, d, vp / ENTRIES), vp % ENTRIES))| >= 2
  {
    var i := vp / ENTRIES;
    if !HasTable(m, d, i) {
      assert |LowFree(m.bits)| > 0;
    }
    AddTableKeeps(m, d, i);
    if !HasTable(m, d, i) {
      var a := AddTable(m, d, i);
      assert |LowFree(a.bits)| >= 2;
      ReleaseRoom(a, TableOf(a, d, i), vp % ENTRIES);
      SubsetSize(LowFree(a.bits), LowFree(ReleaseLeaf(a, TableOf(a, d, i), vp % ENTRIES)));
    }
  }

  lemma SubsetSize(s: set<nat>, t: set<nat>)
    requires s <= t
    ensures |s| <= |t|
  {
    assert t == s + (t - s);
  }

  /** `paging_map_identity`. */
  ghost function MapIdentity(m: Memory, d: nat, vp: frame, user: bool, readWrite: bool): Memory
    requires Sound(m, d) && (!HasTable(m, d, vp / ENTRIES) ==> LowFree(m.bits) != {})
  {
    var i := vp / ENTRIES;
    AddTableKeeps(m, d, i);
    var a := AddTable(m, d, i);
    IdentityLeaf(a, TableOf(a, d, i), vp % ENTRIES, vp, user, readWrite)
  }

  // ---------------------------------------------------------------- lemmas: adding a table

  /** At page p of a sound directory: nothing free. */
  lemma SoundTaken(m: Memory, d: nat, p: nat)
    requires Sound(m, d) && p < PAGE_COUNT && !Taken(m.bits, p)
    ensures p != d && p != 0
    ensures forall i :: HasTable(m, d, i) ==> TableOf(m, d, i) != p
    ensures forall i, j :: HasLeaf(m, d, i, j) ==> LeafOf(m, d, i, j) != p
  {
  }

  lemma AddTableKeeps(m: Memory, d: nat, i: nat)
    requires Sound(m, d) && i < ENTRIES && (!HasTable(m, d, i) ==> LowFree(m.bits) != {})
    ensures var r := AddTable(m, d, i);
            && Sound(r, d) && HasTable(r, d, i)
            && (forall vp: nat :: vp < PAGE_COUNT ==> Translate(r, d, vp) == Translate(m, d, vp))
            && (!HasTable(m, d, i) ==>
                  TableOf(r, d, i) == Lowest(m.bits) && LowFree(r.bits) == LowFree(m.bits) - {Lowest(m.bits)})
  {
    if !HasTable(m, d, i) {
      var t := Lowest(m.bits);
      var r := AddTable(m, d, i);
      SoundTaken(m, d, t);
      LowFreeMark(m.bits, t);
      NewTable(m, r, d, i, t);
      NewTableSound(m, r, d, i, t);
    }
  }

  /** What a directory looks like with an empty table t at index i. */
  ghost predicate WithTable(m: Memory, r: Memory, d: nat, i: nat, t: nat) {
    && Readable(m, d) && Readable(r, d) && i < ENTRIES && HasTable(r, d, i) && TableOf(r, d, i) == t
    && (forall k :: k != i ==> HasTable(r, d, k) == HasTable(m, d, k))
    && (forall k :: k != i && HasTable(m, d, k) ==> TableOf(r, d, k) == TableOf(m, d, k))
    && (forall k, j :: HasLeaf(r, d, k, j) == HasLeaf(m, d, k, j))
    && (forall k, j :: HasLeaf(m, d, k, j) ==> LeafOf(r, d, k, j) == LeafOf(m, d, k, j))
  }

  lemma NewTable(m: Memory, r: Memory, d: nat, i: nat, t: nat)
    requires Readable(m, d) && i < ENTRIES && !HasTable(m, d, i) && t != d && t < PAGE_COUNT
    requires forall k :: HasTable(m, d, k) ==> TableOf(m, d, k) != t && TableOf(m, d, k) != d
    requires r.phys == m.phys[t := ZeroPage()][d := m.phys[d][i := Entry(true, true, true, t)]]
    requires |r.bits| == BITMAP_SIZE_BYTES
    ensures WithTable(m, r, d, i, t)
  {
    assert IsTable(r, t) && IsTable(r, d);
    forall k | HasTable(r, d, k)
      ensures IsTable(r, TableOf(r, d, k))
      ensures k != i ==> HasTable(m, d, k) && TableOf(r, d, k) == TableOf(m, d, k)
                         && r.phys[TableOf(r, d, k)] == m.phys[TableOf(m, d, k)]
    {
    }
    forall k, j
      ensures HasLeaf(r, d, k, j) == HasLeaf(m, d, k, j)
      ensures HasLeaf(m, d, k, j) ==> LeafOf(r, d, k, j) == LeafOf(m, d, k, j)
    {
      if k == i {
        assert r.phys[t] == ZeroPage();
      } else if HasTable(m, d, k) {
        assert HasTable(r, d, k);
      }
    }
  }

  lemma NewTableSound(m: Memory, r: Memory, d: nat, i: nat, t: nat)
    requires Sound(m, d) && WithTable(m, r, d, i, t) && t < PAGE_COUNT && !Taken(m.bits, t)
    requires r.bits == Mark(m.bits, t)
    ensures Sound(r, d)
  {
    SoundTaken(m, d, t);
    forall p: nat | p < PAGE_COUNT
      ensures Taken(r.bits, p) <==> p == t || Taken(m.bits, p)
    {
      TakenMark(m.bits, t, p);
    }
  }

  // ---------------------------------------------------------------- lemmas: setting a leaf

  /** r is m with entry (i, j) leading to f. */
  ghost predicate WithLeaf(m: Memory, r: Memory, d: nat, i: nat, j: nat, f: nat) {
    && Readable(m, d) && Readable(r, d) && HasLeaf(r, d, i, j) && LeafOf(r, d, i, j) == f
    && (forall k :: HasTable(r, d, k) == HasTable(m, d, k))
    && (forall k :: HasTable(m, d, k) ==> TableOf(r, d, k) == TableOf(m, d, k))
    && (forall k, l :: k != i || l != j ==> HasLeaf(r, d, k, l) == HasLeaf(m, d, k, l))
    && (forall k, l :: (k != i || l != j) && HasLeaf(m, d, k, l) ==> LeafOf(r, d, k, l) == LeafOf(m, d, k, l))
  }

  lemma PutLeafWith(m: Memory, d: nat, i: nat, j: nat, bits: seq<bv8>, e: Entry)
    requires Sound(m, d) && HasTable(m, d, i) && j < ENTRIES && e.present && |bits| == BITMAP_SIZE_BYTES
    ensures WithLeaf(m, PutLeaf(m, TableOf(m, d, i), j, bits, e), d, i, j, e.address)
  {
    var t := TableOf(m, d, i);
    var r := PutLeaf(m, t, j, bits, e);
    assert IsTable(m, t) && IsTable(r, t) && r.phys[d] == m.phys[d];
    forall k | HasTable(r, d, k)
      ensures HasTable(m, d, k) && IsTable(r, TableOf(r, d, k))
      ensures k != i ==> r.phys[TableOf(r, d, k)] == m.phys[TableOf(m, d, k)]
    {
      assert HasTable(m, d, k);
    }
  }

  /** f may become the leaf at (i, j): it is no page of the directory except perhaps the leaf there now. */
  ghost predicate Fits(m: Memory, d: nat, i: nat, j: nat, f: nat) {
    && Readable(m, d) && f != d && f != 0 && f < PAGE_COUNT
    && (forall k :: HasTable(m, d, k) ==> TableOf(m, d, k) != f)
    && (forall k, l :: HasLeaf(m, d, k, l) && (k != i || l != j) ==> LeafOf(m, d, k, l) != f)
  }

  lemma LeafSound(m: Memory, r: Memory, d: nat, i: nat, j: nat, f: nat)
    requires Sound(m, d) && WithLeaf(m, r, d, i, j, f) && Fits(m, d, i, j, f) && Taken(r.bits, f)
    requires forall p: nat ::
               p < PAGE_COUNT && Taken(m.bits, p) && !(HasLeaf(m, d, i, j) && p == LeafOf(m, d, i, j)) ==>
                 Taken(r.bits, p)
    ensures Sound(r, d)
  {
  }

  lemma LeafTranslates(m: Memory, r: Memory, d: nat, vp: nat, f: nat, q: nat)
    requires vp < PAGE_COUNT && q < PAGE_COUNT && WithLeaf(m, r, d, vp / ENTRIES, vp % ENTRIES, f)
    ensures Translate(r, d, q) == if q == vp then Some(f) else Translate(m, d, q)
  {
  }

  // ---------------------------------------------------------------- paging_map

  lemma TakenRelease(m: Memory, d: nat, i: nat, j: nat, p: nat)
    requires Readable(m, d) && HasTable(m, d, i) && j < ENTRIES && p < PAGE_COUNT
    ensures Taken(ReleaseLeaf(m, TableOf(m, d, i), j), p)
            <==> Taken(m.bits, p) && !(HasLeaf(m, d, i, j) && p == LeafOf(m, d, i, j))
  {
    if HasLeaf(m, d, i, j) {
      TakenUnmark(m.bits, LeafOf(m, d, i, j), p);
    }
  }

  lemma ReleasedFits(m: Memory, d: nat, i: nat, j: nat, f: nat)
    requires Sound(m, d) && HasTable(m, d, i) && j < ENTRIES && f < PAGE_COUNT
    requires !Taken(ReleaseLeaf(m, TableOf(m, d, i), j), f)
    ensures Fits(m, d, i, j, f)
  {
    TakenRelease(m, d, i, j, f);
    if !Taken(m.bits, f) {
      SoundTaken(m, d, f);
    }
  }

  lemma MapLeafKeeps(m: Memory, d: nat, i: nat, j: nat)
    requires Sound(m, d) && HasTable(m, d, i) && j < ENTRIES && LowFree(ReleaseLeaf(m, TableOf(m, d, i), j)) != {}
    ensures var f := Lowest(ReleaseLeaf(m, TableOf(m, d, i), j));
            var r := MapLeaf(m, TableOf(m, d, i), j);
            Sound(r, d) && WithLeaf(m, r, d, i, j, f)
  {
    var t := TableOf(m, d, i);
    var bits := ReleaseLeaf(m, t, j);
    var f := Lowest(bits);
    var r := MapLeaf(m, t, j);
    PutLeafWith(m, d, i, j, Mark(bits, f), Entry(true, true, true, f));
    ReleasedFits(m, d, i, j, f);
    forall p: nat | p < PAGE_COUNT
      ensures Taken(r.bits, p) <==> p == f || (Taken(m.bits, p) && !(HasLeaf(m, d, i, j) && p == LeafOf(m, d, i, j)))
    {
      TakenMark(bits, f, p);
      TakenRelease(m, d, i, j, p);
    }
    LeafSound(m, r, d, i, j, f);
  }

  lemma ReleaseRoom(m: Memory, t: nat, j: nat)
    requires |m.bits| == BITMAP_SIZE_BYTES && IsTable(m, t) && j < ENTRIES
    ensures LowFree(m.bits) <= LowFree(ReleaseLeaf(m, t, j))
  {
    if m.phys[t][j].present {
      LowFreeUnmark(m.bits, m.phys[t][j].address);
    }
  }

  /**
   * `paging_map` keeps the directory sound and changes the translation of one virtual page only,
   * to the lowest page that is free once any old mapping of it has been released.
   */
  lemma MapKeeps(m: Memory, d: nat, vp: nat) returns (f: nat)
    requires Sound(m, d) && vp < PAGE_COUNT && Mappable(m, d, vp)
    ensures var r := Map(m, d, vp);
            var a := AddTable(m, d, vp / ENTRIES);
            && Sound(r, d)
            && IsLowestFree(ReleaseLeaf(a, TableOf(a, d, vp / ENTRIES), vp % ENTRIES), f)
            && (forall q: nat :: q < PAGE_COUNT ==>
                 Translate(r, d, q) == if q == vp then Some(f) else Translate(m, d, q))
            && (!Taken(m.bits, f) || Translate(m, d, vp) == Some(f))
  {
    var i, j := vp / ENTRIES, vp % ENTRIES;
    MapRoom(m, d, vp);
    AddTableKeeps(m, d, i);
    var a := AddTable(m, d, i);
    var t := TableOf(a, d, i);
    f := Lowest(ReleaseLeaf(a, t, j));
    MapLeafKeeps(a, d, i, j);
    forall q: nat | q < PAGE_COUNT
      ensures Translate(Map(m, d, vp), d, q) == if q == vp then Some(f) else Translate(m, d, q)
    {
      LeafTranslates(a, Map(m, d, vp), d, vp, f, q);
    }
    FreshFrame(m, a, d, vp, f);
  }

  lemma FreshFrame(m: Memory, a: Memory, d: nat, vp: nat, f: nat)
    requires Sound(m, d) && Sound(a, d) && vp < PAGE_COUNT && HasTable(a, d, vp / ENTRIES) && f < PAGE_COUNT
    requires !HasTable(m, d, vp / ENTRIES) ==> LowFree(m.bits) != {}
    requires a == AddTable(m, d, vp / ENTRIES)
    requires Translate(a, d, vp) == Translate(m, d, vp)
    requires !Taken(ReleaseLeaf(a, TableOf(a, d, vp / ENTRIES), vp % ENTRIES), f)
    ensures !Taken(m.bits, f) || Translate(m, d, vp) == Some(f)
  {
    TakenRelease(a, d, vp / ENTRIES, vp % ENTRIES, f);
    if !HasTable(m, d, vp / ENTRIES) {
      TakenMark(m.bits, Lowest(m.bits), f);
    }
  }
}
