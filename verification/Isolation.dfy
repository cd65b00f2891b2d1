/**
 * Address spaces of different processes: directories made by `process_create` and pages mapped in
 * them one at a time (core/process/process.c and core/memory/paging.c) never come to share a
 * page, except the kernel's own pages, which every directory maps onto themselves.
 */
module Isolation {
  import opened Words
  import opened PageBits
  import opened PageTables
  import opened PageRanges

  // ---------------------------------------------------------------- two directories

  /** The page of the directory or of one of its tables. */
  ghost predicate Structure(m: Memory, d: nat, p: nat)
    requires IsTable(m, d)
  {
    p == d || exists i :: HasTable(m, d, i) && TableOf(m, d, i) == p
  }

  /** No page holding entries of d is used by e in any way. */
  ghost predicate Avoids(m: Memory, d: nat, e: nat) {
    && IsTable(m, d) && Readable(m, e)
    && forall p: nat :: Structure(m, d, p) ==> !InFootprint(m, e, p)
  }

  /** A frame both map is a kernel page that both map onto itself. */
  ghost predicate SharesKernelOnly(m: Memory, d: nat, e: nat, kernelSize: nat) {
    && IsTable(m, d) && IsTable(m, e) && kernelSize > 0
    && forall q: nat, x: nat :: q < PAGE_COUNT && x < PAGE_COUNT ==>
         SharedFrame(Translate(m, d, q), Translate(m, e, x), q, x, kernelSize)
  }

  ghost predicate Apart(m: Memory, d: nat, e: nat, kernelSize: nat) {
    Avoids(m, d, e) && Avoids(m, e, d) && SharesKernelOnly(m, d, e, kernelSize)
  }

  /** A sound directory whose own pages are no kernel pages, and which maps kernel pages only onto themselves. */
  ghost predicate Tidy(m: Memory, d: nat, kernelSize: nat) {
    && kernelSize > 0 && Sound(m, d)
    && (forall p: nat :: Structure(m, d, p) ==> !KernelPage(kernelSize, p))
    && (forall q: nat :: q < PAGE_COUNT && Translate(m, d, q).Some? && KernelPage(kernelSize, Translate(m, d, q).value)
          ==> Translate(m, d, q) == Some(q))
  }

  lemma StructureTaken(m: Memory, d: nat, p: nat)
    requires Sound(m, d) && Structure(m, d, p)
    ensures p < PAGE_COUNT && Taken(m.bits, p) && InFootprint(m, d, p) && p in m.phys
  {
  }

  /** Every page of a directory is the directory, a table, or a frame it translates to. */
  lemma FootprintParts(m: Memory, d: nat, p: nat)
    requires Sound(m, d) && InFootprint(m, d, p)
    ensures Structure(m, d, p) || exists q: nat :: q < PAGE_COUNT && Translate(m, d, q) == Some(p)
  {
    if i, j :| HasLeaf(m, d, i, j) && LeafOf(m, d, i, j) == p {
      var q := i * ENTRIES + j;
      assert q / ENTRIES == i && q % ENTRIES == j;
      assert Translate(m, d, q) == Some(p);
    }
  }

  lemma FrameInFootprint(m: Memory, d: nat, q: nat)
    requires Sound(m, d) && q < PAGE_COUNT && Translate(m, d, q).Some?
    ensures InFootprint(m, d, Translate(m, d, q).value) && Translate(m, d, q).value < PAGE_COUNT
    ensures Taken(m.bits, Translate(m, d, q).value)
  {
    assert HasLeaf(m, d, q / ENTRIES, q % ENTRIES);
  }

  // ---------------------------------------------------------------- directories an operation leaves alone

  /** e is the same directory in both memories. */
  ghost predicate SameView(m: Memory, r: Memory, e: nat) {
    && Readable(m, e) && Readable(r, e)
    && (forall q: nat :: q < PAGE_COUNT ==> Translate(r, e, q) == Translate(m, e, q))
    && (forall p: nat :: Structure(r, e, p) == Structure(m, e, p))
    && (forall p: nat :: InFootprint(r, e, p) == InFootprint(m, e, p))
  }

  /** A directory whose own pages hold what they held, and stay taken, is the same and sound. */
  lemma OtherKept(m: Memory, r: Memory, e: nat)
    requires Sound(m, e) && |r.bits| == BITMAP_SIZE_BYTES
    requires forall p: nat :: p < PAGE_COUNT && (p == 0 || InFootprint(m, e, p)) && Taken(m.bits, p) ==>
              Taken(r.bits, p)
    requires forall p: nat :: Structure(m, e, p) ==> p in r.phys && r.phys[p] == m.phys[p]
    ensures Sound(r, e) && SameView(m, r, e)
  {
    assert Structure(m, e, e) && InFootprint(m, e, e);
    forall i | HasTable(m, e, i)
      ensures InFootprint(m, e, TableOf(m, e, i)) && IsTable(r, TableOf(m, e, i))
      ensures r.phys[TableOf(m, e, i)] == m.phys[TableOf(m, e, i)]
    {
      assert Structure(m, e, TableOf(m, e, i));
    }
    assert forall i :: HasTable(r, e, i) == HasTable(m, e, i);
    assert Readable(r, e) by {
      assert forall i :: 0 <= i < ENTRIES && r.phys[e][i].present ==> HasTable(m, e, i);
    }
    assert forall i, j :: HasLeaf(r, e, i, j) == HasLeaf(m, e, i, j);
    assert forall i, j :: HasLeaf(m, e, i, j) ==> LeafOf(r, e, i, j) == LeafOf(m, e, i, j);
  }

  lemma AvoidsKept(m: Memory, r: Memory, e: nat, f: nat)
    requires Avoids(m, e, f) && SameView(m, r, e) && SameView(m, r, f)
    ensures Avoids(r, e, f)
  {
  }

  /** Two directories an operation leaves alone stay apart. */
  lemma ApartKept(m: Memory, r: Memory, e: nat, f: nat, kernelSize: nat)
    requires Apart(m, e, f, kernelSize) && SameView(m, r, e) && SameView(m, r, f)
    ensures Apart(r, e, f, kernelSize)
  {
    AvoidsKept(m, r, e, f);
    AvoidsKept(m, r, f, e);
  }

  lemma TidyKept(m: Memory, r: Memory, e: nat, kernelSize: nat)
    requires Tidy(m, e, kernelSize) && SameView(m, r, e) && Sound(r, e)
    ensures Tidy(r, e, kernelSize)
  {
  }

  // ---------------------------------------------------------------- the directory an operation works on

  /** Only free pages joined the structure of d, nothing was let go, and pages in other use hold what they held. */
  ghost predicate Grew(m: Memory, r: Memory, d: nat) {
    && Sound(m, d) && Sound(r, d)
    && (forall p: nat :: p < PAGE_COUNT && Taken(m.bits, p) ==> Taken(r.bits, p))
    && (forall p: nat :: p < PAGE_COUNT && Taken(m.bits, p) && Structure(r, d, p) ==> Structure(m, d, p))
    && (forall p: nat :: p < PAGE_COUNT && Taken(m.bits, p) && p in m.phys && !Structure(m, d, p) ==>
         p in r.phys && r.phys[p] == m.phys[p])
  }

  lemma GrewTwice(m: Memory, s: Memory, r: Memory, d: nat)
    requires Grew(m, s, d) && Grew(s, r, d)
    ensures Grew(m, r, d)
  {
  }

  lemma GrewKeepsOther(m: Memory, r: Memory, d: nat, e: nat)
    requires Avoids(m, e, d) && Sound(m, e) && Grew(m, r, d)
    ensures Sound(r, e) && SameView(m, r, e)
  {
    forall p: nat | Structure(m, e, p)
      ensures p in r.phys && r.phys[p] == m.phys[p]
    {
      StructureTaken(m, e, p);
      if Structure(m, d, p) {
        StructureTaken(m, d, p);
      }
    }
    OtherKept(m, r, e);
  }

  /** What d maps in r it mapped in m, or it maps it to a page free in m, or it is a kernel page mapped onto itself. */
  ghost predicate NewFrames(m: Memory, r: Memory, d: nat, kernelSize: nat) {
    && kernelSize > 0 && Sound(m, d) && Sound(r, d)
    && forall q: nat :: q < PAGE_COUNT ==> NewFrame(m, Translate(m, d, q), Translate(r, d, q), q, kernelSize)
  }

  ghost predicate NewFrame(m: Memory, was: Option<nat>, now: Option<nat>, q: nat, kernelSize: nat)
    requires |m.bits| == BITMAP_SIZE_BYTES && kernelSize > 0
  {
    || now == was
    || (now.Some? && now.value < PAGE_COUNT && !Taken(m.bits, now.value))
    || (now == Some(q) && KernelPage(kernelSize, q))
  }

  lemma StructureAvoids(m: Memory, r: Memory, d: nat, e: nat)
    requires Avoids(m, d, e) && Sound(m, e) && Grew(m, r, d) && SameView(m, r, e)
    ensures Avoids(r, d, e)
  {
    forall p: nat | Structure(r, d, p)
      ensures !InFootprint(r, e, p)
    {
      if InFootprint(m, e, p) {
        FootprintTaken(m, e, p);
      }
    }
  }

  lemma StructureAvoided(m: Memory, r: Memory, d: nat, e: nat, kernelSize: nat)
    requires Avoids(m, e, d) && Tidy(m, e, kernelSize) && Grew(m, r, d) && SameView(m, r, e)
    requires NewFrames(m, r, d, kernelSize)
    ensures Avoids(r, e, d)
  {
    forall p: nat | Structure(r, e, p)
      ensures !InFootprint(r, d, p)
    {
      StructureTaken(m, e, p);
      if InFootprint(r, d, p) {
        FootprintParts(r, d, p);
        if Structure(r, d, p) {
          StructureTaken(m, d, p);
        } else {
          var q: nat :| q < PAGE_COUNT && Translate(r, d, q) == Some(p);
          assert NewFrame(m, Translate(m, d, q), Translate(r, d, q), q, kernelSize);
          FrameInFootprint(m, d, q);
        }
      }
    }
  }

  lemma FramesShared(m: Memory, r: Memory, d: nat, e: nat, kernelSize: nat)
    requires SharesKernelOnly(m, d, e, kernelSize) && Tidy(m, e, kernelSize) && SameView(m, r, e)
    requires NewFrames(m, r, d, kernelSize)
    ensures SharesKernelOnly(r, d, e, kernelSize)
  {
    forall q: nat, x: nat | q < PAGE_COUNT && x < PAGE_COUNT
      ensures SharedFrame(Translate(r, d, q), Translate(r, e, x), q, x, kernelSize)
    {
      assert NewFrame(m, Translate(m, d, q), Translate(r, d, q), q, kernelSize);
      FrameShared(m, d, e, q, x, Translate(r, d, q), kernelSize);
    }
  }

  /** Frames that two directories have for two pages, if the same, are the kernel page both pages are. */
  ghost predicate SharedFrame(f: Option<nat>, g: Option<nat>, q: nat, x: nat, kernelSize: nat)
    requires kernelSize > 0
  {
    f.Some? && f == g ==> q == x && f == Some(q) && KernelPage(kernelSize, q)
  }

  lemma FrameShared(m: Memory, d: nat, e: nat, q: nat, x: nat, f: Option<nat>, kernelSize: nat)
    requires SharesKernelOnly(m, d, e, kernelSize) && Tidy(m, e, kernelSize) && Sound(m, d)
    requires q < PAGE_COUNT && x < PAGE_COUNT
    requires NewFrame(m, Translate(m, d, q), f, q, kernelSize)
    ensures SharedFrame(f, Translate(m, e, x), q, x, kernelSize)
  {
    if f.Some? && f == Translate(m, e, x) {
      FrameInFootprint(m, e, x);
    }
  }

  /** Working on d keeps d and e apart, and e as it is. */
  lemma ApartAfter(m: Memory, r: Memory, d: nat, e: nat, kernelSize: nat)
    requires Apart(m, d, e, kernelSize) && Tidy(m, e, kernelSize)
    requires Grew(m, r, d) && NewFrames(m, r, d, kernelSize)
    ensures Apart(r, d, e, kernelSize) && Tidy(r, e, kernelSize) && SameView(m, r, e)
  {
    GrewKeepsOther(m, r, d, e);
    StructureAvoids(m, r, d, e);
    StructureAvoided(m, r, d, e, kernelSize);
    FramesShared(m, r, d, e, kernelSize);
    TidyKept(m, r, e, kernelSize);
  }

  /** And d as tidy as it was. */
  lemma TidyAfter(m: Memory, r: Memory, d: nat, kernelSize: nat)
    requires Tidy(m, d, kernelSize) && KernelTaken(m.bits, kernelSize)
    requires Grew(m, r, d) && NewFrames(m, r, d, kernelSize)
    ensures Tidy(r, d, kernelSize) && KernelTaken(r.bits, kernelSize)
  {
    forall p: nat | Structure(r, d, p)
      ensures !KernelPage(kernelSize, p)
    {
      StructureTaken(r, d, p);
    }
    forall q: nat | q < PAGE_COUNT && Translate(r, d, q).Some? && KernelPage(kernelSize, Translate(r, d, q).value)
      ensures Translate(r, d, q) == Some(q)
    {
      assert NewFrame(m, Translate(m, d, q), Translate(r, d, q), q, kernelSize);
      FrameInFootprint(r, d, q);
    }
  }

  // ---------------------------------------------------------------- mapping a page

  lemma AddTableGrew(m: Memory, d: nat, i: nat)
    requires Sound(m, d) && i < ENTRIES && (!HasTable(m, d, i) ==> LowFree(m.bits) != {})
    ensures Grew(m, AddTable(m, d, i), d)
  {
    AddTableKeeps(m, d, i);
    if !HasTable(m, d, i) {
      var a, t := AddTable(m, d, i), Lowest(m.bits);
      SoundTaken(m, d, t);
      NewTable(m, a, d, i, t);
      forall p: nat | p < PAGE_COUNT
        ensures Taken(a.bits, p) <==> p == t || Taken(m.bits, p)
      {
        TakenMark(m.bits, t, p);
      }
      forall p: nat | Structure(a, d, p)
        ensures p == t || Structure(m, d, p)
      {
        if k :| HasTable(a, d, k) && TableOf(a, d, k) == p {
          assert k != i ==> HasTable(m, d, k);
        }
      }
    }
  }

  lemma PutLeafGrew(m: Memory, r: Memory, d: nat, i: nat, j: nat, bits: seq<bv8>, e: Entry)
    requires Sound(m, d) && HasTable(m, d, i) && j < ENTRIES && e.present && |bits| == BITMAP_SIZE_BYTES
    requires r == PutLeaf(m, TableOf(m, d, i), j, bits, e) && Sound(r, d)
    requires forall p: nat :: p < PAGE_COUNT && Taken(m.bits, p) ==> Taken(bits, p)
    ensures Grew(m, r, d)
  {
    PutLeafWith(m, d, i, j, bits, e);
    assert Structure(m, d, TableOf(m, d, i));
    forall p: nat | Structure(r, d, p)
      ensures Structure(m, d, p)
    {
      if k :| HasTable(r, d, k) && TableOf(r, d, k) == p {
        assert HasTable(m, d, k) && TableOf(m, d, k) == p;
      }
    }
  }

  /** `paging_map` of an unmapped page. */
  lemma MapGrew(m: Memory, d: nat, vp: nat, kernelSize: nat)
    requires Sound(m, d) && vp < PAGE_COUNT && Mappable(m, d, vp) && Translate(m, d, vp) == None && kernelSize > 0
    ensures Grew(m, Map(m, d, vp), d) && NewFrames(m, Map(m, d, vp), d, kernelSize)
  {
    var i, j := vp / ENTRIES, vp % ENTRIES;
    MapRoom(m, d, vp);
    AddTableKeeps(m, d, i);
    AddTableGrew(m, d, i);
    var f := MapKeeps(m, d, vp);
    var a := AddTable(m, d, i);
    assert Translate(a, d, vp) == None;
    var bits := ReleaseLeaf(a, TableOf(a, d, i), j);
    assert !HasLeaf(a, d, i, j) && bits == a.bits;
    LowFreeHas(bits);
    var g := Lowest(bits);
    forall p: nat | p < PAGE_COUNT && Taken(a.bits, p)
      ensures Taken(Mark(bits, g), p)
    {
      TakenMark(bits, g, p);
    }
    PutLeafGrew(a, Map(m, d, vp), d, i, j, Mark(bits, g), Entry(true, true, true, g));
    GrewTwice(m, a, Map(m, d, vp), d);
  }

  lemma LowFreeHas(bits: seq<bv8>)
    requires |bits| == BITMAP_SIZE_BYTES && |LowFree(bits)| >= 2
    ensures LowFree(bits) != {}
  {
  }

  // ---------------------------------------------------------------- making a directory

  /** `paging_map_identity` of a taken page not yet mapped. */
  lemma IdentityGrew(s: Memory, d: nat, p: frame, user: bool)
    requires Sound(s, d) && Taken(s.bits, p) && Translate(s, d, p) == None && TableFits(s, d, p)
    requires Fits(s, d, p / ENTRIES, p % ENTRIES, p)
    ensures LowFree(s.bits) != {} || HasTable(s, d, p / ENTRIES)
    ensures Grew(s, MapIdentity(s, d, p, user, false), d)
  {
    var i, j := p / ENTRIES, p % ENTRIES;
    IdentityKeeps(s, d, p, user, false);
    AddTableKeeps(s, d, i);
    AddTableGrew(s, d, i);
    var a := AddTable(s, d, i);
    assert Translate(a, d, p) == None;
    assert !HasLeaf(a, d, i, j);
    var r := MapIdentity(s, d, p, user, false);
    PutLeafGrew(a, r, d, i, j, a.bits, Entry(true, false, user, p));
    GrewTwice(s, a, r, d);
  }

  lemma {:induction false} IdentitiesGrew(m: Memory, d: nat, vs: seq<IdentityPage>)
    requires Mappables(m, d, vs) && IdentityAll(m, d, vs).Some?
    ensures Grew(m, IdentityAll(m, d, vs).value, d)
    decreases |vs|
  {
    if vs != [] {
      var front, v := vs[..|vs| - 1], vs[|vs| - 1];
      FrontMappable(m, d, vs);
      IdentitiesGrew(m, d, front);
      var s := IdentityAll(m, d, front).value;
      NotInFront(vs);
      StillFits(m, s, d, front, v.page);
      IdentityGrew(s, d, v.page, v.user);
      GrewTwice(m, s, IdentityAll(m, d, vs).value, d);
    }
  }

  /** `paging_init_directory`, from the wiped page on. */
  lemma InitGrew(m: Memory, d: nat, kernelSize: nat)
    requires CanInit(m, d, kernelSize)
    ensures Grew(Wiped(m, d), InitDirectory(m, d, kernelSize), d)
    ensures NewFrames(Wiped(m, d), InitDirectory(m, d, kernelSize), d, kernelSize)
  {
    InitReturns(m, d, kernelSize);
    IdentitiesGrew(Wiped(m, d), d, KernelPages(kernelSize));
    forall q: nat | q < PAGE_COUNT
      ensures NewFrame(Wiped(m, d), Translate(Wiped(m, d), d, q), Translate(InitDirectory(m, d, kernelSize), d, q),
                       q, kernelSize)
    {
      InitTranslates(m, d, kernelSize, q);
    }
  }

  // ---------------------------------------------------------------- all address spaces together

  /** Every directory in use is tidy, and any two of them are apart. */
  ghost predicate Isolated(m: Memory, dirs: seq<nat>, kernelSize: nat) {
    && |m.bits| == BITMAP_SIZE_BYTES && Fitting(kernelSize) && KernelTaken(m.bits, kernelSize)
    && (forall i :: 0 <= i < |dirs| ==> Tidy(m, dirs[i], kernelSize))
    && (forall i, j :: 0 <= i < |dirs| && 0 <= j < |dirs| && i != j ==> Apart(m, dirs[i], dirs[j], kernelSize))
  }

  lemma IsolatedAfter(m: Memory, r: Memory, dirs: seq<nat>, k: nat, kernelSize: nat)
    requires Isolated(m, dirs, kernelSize) && k < |dirs|
    requires Grew(m, r, dirs[k]) && NewFrames(m, r, dirs[k], kernelSize)
    ensures Isolated(r, dirs, kernelSize)
    ensures forall i :: 0 <= i < |dirs| && i != k ==> SameView(m, r, dirs[i])
  {
    TidyAfter(m, r, dirs[k], kernelSize);
    forall i | 0 <= i < |dirs| && i != k
      ensures Apart(r, dirs[k], dirs[i], kernelSize) && Apart(r, dirs[i], dirs[k], kernelSize)
      ensures Tidy(r, dirs[i], kernelSize) && SameView(m, r, dirs[i])
    {
      ApartAfter(m, r, dirs[k], dirs[i], kernelSize);
    }
    forall i, j | 0 <= i < |dirs| && 0 <= j < |dirs| && i != j
      ensures Apart(r, dirs[i], dirs[j], kernelSize)
    {
      if i != k && j != k {
        ApartKept(m, r, dirs[i], dirs[j], kernelSize);
      }
    }
  }

  /** `paging_allocate_new_page` for a directory, wiped. */
  ghost function EmptySpace(m: Memory): Memory
    requires |m.bits| == BITMAP_SIZE_BYTES && LowFree(m.bits) != {}
  {
    Wiped(Memory(Mark(m.bits, Lowest(m.bits)), m.phys), Lowest(m.bits))
  }

  /** A directory in use does not notice. */
  lemma EmptyUnnoticed(m: Memory, e: nat, kernelSize: nat)
    requires Tidy(m, e, kernelSize) && LowFree(m.bits) != {}
    ensures Tidy(EmptySpace(m), e, kernelSize) && SameView(m, EmptySpace(m), e)
  {
    var d := Lowest(m.bits);
    var w := EmptySpace(m);
    forall p: nat | p < PAGE_COUNT && Taken(m.bits, p)
      ensures Taken(w.bits, p)
    {
      TakenMark(m.bits, d, p);
    }
    forall p: nat | Structure(m, e, p)
      ensures p in w.phys && w.phys[p] == m.phys[p]
    {
      StructureTaken(m, e, p);
    }
    OtherKept(m, w, e);
    TidyKept(m, w, e, kernelSize);
  }

  lemma EmptyApart(m: Memory, e: nat, kernelSize: nat)
    requires Tidy(m, e, kernelSize) && LowFree(m.bits) != {}
    ensures Apart(EmptySpace(m), Lowest(m.bits), e, kernelSize) && Apart(EmptySpace(m), e, Lowest(m.bits), kernelSize)
  {
    var d := Lowest(m.bits);
    EmptyUnnoticed(m, e, kernelSize);
    if InFootprint(m, e, d) {
      FootprintTaken(m, e, d);
    }
    NoTablesApart(EmptySpace(m), d, e, kernelSize);
  }

  lemma NoTablesApart(w: Memory, d: nat, e: nat, kernelSize: nat)
    requires Tidy(w, e, kernelSize) && Readable(w, d) && (forall i :: !HasTable(w, d, i))
    requires !InFootprint(w, e, d)
    ensures Apart(w, d, e, kernelSize) && Apart(w, e, d, kernelSize)
  {
    assert forall p: nat :: InFootprint(w, d, p) ==> p == d;
    if Structure(w, e, d) {
      StructureTaken(w, e, d);
    }
  }

  lemma EmptyReady(m: Memory, dirs: seq<nat>, kernelSize: nat)
    requires Isolated(m, dirs, kernelSize) && |LowFree(m.bits)| > |KernelTables(kernelSize)| + 1
    ensures LowFree(m.bits) != {}
    ensures CanInit(Memory(Mark(m.bits, Lowest(m.bits)), m.phys), Lowest(m.bits), kernelSize)
  {
    LowFreeHas(m.bits);
    FreshPageFits(m, Lowest(m.bits), kernelSize);
  }

  lemma IsolatedWithEmpty(m: Memory, dirs: seq<nat>, kernelSize: nat)
    requires Isolated(m, dirs, kernelSize) && |LowFree(m.bits)| > |KernelTables(kernelSize)| + 1
    ensures LowFree(m.bits) != {} && Isolated(EmptySpace(m), dirs + [Lowest(m.bits)], kernelSize)
    ensures forall i :: 0 <= i < |dirs| ==> SameView(m, EmptySpace(m), dirs[i])
  {
    EmptyReady(m, dirs, kernelSize);
    var d := Lowest(m.bits);
    var w := EmptySpace(m);
    EmptyTidy(Memory(Mark(m.bits, d), m.phys), d, kernelSize);
    forall i | 0 <= i < |dirs|
      ensures SameView(m, w, dirs[i]) && Tidy(w, dirs[i], kernelSize)
      ensures Apart(w, dirs[i], d, kernelSize) && Apart(w, d, dirs[i], kernelSize)
    {
      EmptyUnnoticed(m, dirs[i], kernelSize);
      EmptyApart(m, dirs[i], kernelSize);
    }
    forall i, j | 0 <= i < |dirs| && 0 <= j < |dirs| && i != j
      ensures Apart(w, dirs[i], dirs[j], kernelSize)
    {
      ApartKept(m, w, dirs[i], dirs[j], kernelSize);
    }
  }

  lemma EmptyTidy(m: Memory, d: nat, kernelSize: nat)
    requires CanInit(m, d, kernelSize)
    ensures Tidy(Wiped(m, d), d, kernelSize)
  {
    WipedReady(m, d, kernelSize);
  }

  // ---------------------------------------------------------------- mapping over an old mapping

  /** The old mapping of a page taken away: what mapping over it amounts to doing first. */
  ghost function Released(m: Memory, d: nat, vp: nat): Memory
    requires Sound(m, d) && vp < PAGE_COUNT && Translate(m, d, vp).Some?
  {
    var i, j := vp / ENTRIES, vp % ENTRIES;
    var t := TableOf(m, d, i);
    Memory(Unmark(m.bits, LeafOf(m, d, i, j)), m.phys[t := m.phys[t][j := m.phys[t][j].(present := false)]])
  }

  /** r is m without the leaf (i, j). */
  ghost predicate WithoutLeaf(m: Memory, r: Memory, d: nat, i: nat, j: nat) {
    && Readable(m, d) && Readable(r, d) && !HasLeaf(r, d, i, j)
    && (forall k :: HasTable(r, d, k) == HasTable(m, d, k))
    && (forall k :: HasTable(m, d, k) ==> TableOf(r, d, k) == TableOf(m, d, k))
    && (forall k, l :: k != i || l != j ==> HasLeaf(r, d, k, l) == HasLeaf(m, d, k, l))
    && (forall k, l :: (k != i || l != j) && HasLeaf(m, d, k, l) ==> LeafOf(r, d, k, l) == LeafOf(m, d, k, l))
  }

  lemma ReleasedLeaf(m: Memory, d: nat, vp: nat)
    requires Sound(m, d) && vp < PAGE_COUNT && Translate(m, d, vp).Some?
    ensures WithoutLeaf(m, Released(m, d, vp), d, vp / ENTRIES, vp % ENTRIES)
  {
    var i := vp / ENTRIES;
    var t := TableOf(m, d, i);
    var r := Released(m, d, vp);
    assert IsTable(m, t) && IsTable(r, t) && r.phys[d] == m.phys[d];
    forall k | HasTable(r, d, k)
      ensures HasTable(m, d, k) && IsTable(r, TableOf(r, d, k))
      ensures k != i ==> r.phys[TableOf(r, d, k)] == m.phys[TableOf(m, d, k)]
    {
      assert HasTable(m, d, k);
    }
  }

  lemma ReleasedSound(m: Memory, d: nat, vp: nat)
    requires Sound(m, d) && vp < PAGE_COUNT && Translate(m, d, vp).Some?
    ensures var r := Released(m, d, vp);
            && Sound(r, d)
            && (forall q: nat :: q < PAGE_COUNT ==> Translate(r, d, q) == if q == vp then None else Translate(m, d, q))
            && (forall p: nat :: Structure(r, d, p) == Structure(m, d, p))
  {
    var f := Translate(m, d, vp).value;
    ReleasedLeaf(m, d, vp);
    forall p: nat | p < PAGE_COUNT
      ensures Taken(Released(m, d, vp).bits, p) <==> p != f && Taken(m.bits, p)
    {
      TakenUnmark(m.bits, f, p);
    }
    SoundWithout(m, Released(m, d, vp), d, vp / ENTRIES, vp % ENTRIES, f);
  }

  lemma SoundWithout(m: Memory, r: Memory, d: nat, i: nat, j: nat, f: nat)
    requires Sound(m, d) && WithoutLeaf(m, r, d, i, j) && HasLeaf(m, d, i, j) && LeafOf(m, d, i, j) == f
    requires forall p: nat :: p < PAGE_COUNT ==> (Taken(r.bits, p) <==> p != f && Taken(m.bits, p))
    ensures Sound(r, d)
  {
  }

  /** Mapping over an old mapping is mapping after taking the old one away. */
  lemma MapIsReleaseMap(m: Memory, d: nat, vp: nat)
    requires Sound(m, d) && vp < PAGE_COUNT && Translate(m, d, vp).Some? && Mappable(m, d, vp)
    ensures var r := Released(m, d, vp);
            Sound(r, d) && Mappable(r, d, vp) && Map(r, d, vp) == Map(m, d, vp)
  {
    ReleasedSound(m, d, vp);
    var i, j := vp / ENTRIES, vp % ENTRIES;
    var r, t := Released(m, d, vp), TableOf(m, d, i);
    assert HasTable(r, d, i) && TableOf(r, d, i) == t && !HasLeaf(r, d, i, j);
    assert ReleaseLeaf(r, t, j) == ReleaseLeaf(m, t, j);
    var e := Entry(true, true, true, Lowest(ReleaseLeaf(m, t, j)));
    assert m.phys[t][j := m.phys[t][j].(present := false)][j := e] == m.phys[t][j := e];
    assert Map(r, d, vp).phys == Map(m, d, vp).phys;
  }

  /** The page given back is nobody else's and no kernel page, if the virtual page is none. */
  lemma ReleasedPage(m: Memory, d: nat, e: nat, vp: nat, kernelSize: nat)
    requires Tidy(m, d, kernelSize) && Tidy(m, e, kernelSize) && Apart(m, d, e, kernelSize)
    requires vp < PAGE_COUNT && Translate(m, d, vp).Some? && !KernelPage(kernelSize, vp)
    ensures !InFootprint(m, e, Translate(m, d, vp).value)
  {
    var f := Translate(m, d, vp).value;
    FrameInFootprint(m, d, vp);
    if InFootprint(m, e, f) {
      FootprintParts(m, e, f);
    }
  }

  lemma ReleasedOther(m: Memory, d: nat, e: nat, vp: nat, kernelSize: nat)
    requires Tidy(m, d, kernelSize) && Tidy(m, e, kernelSize) && Apart(m, d, e, kernelSize)
    requires vp < PAGE_COUNT && Translate(m, d, vp).Some? && !KernelPage(kernelSize, vp)
    ensures Tidy(Released(m, d, vp), e, kernelSize) && SameView(m, Released(m, d, vp), e)
  {
    var r, f := Released(m, d, vp), Translate(m, d, vp).value;
    ReleasedPage(m, d, e, vp, kernelSize);
    forall p: nat | p < PAGE_COUNT && (p == 0 || InFootprint(m, e, p)) && Taken(m.bits, p)
      ensures Taken(r.bits, p)
    {
      TakenUnmark(m.bits, f, p);
    }
    forall p: nat | Structure(m, e, p)
      ensures p in r.phys && r.phys[p] == m.phys[p]
    {
      StructureTaken(m, e, p);
      assert Structure(m, d, TableOf(m, d, vp / ENTRIES));
      StructureTaken(m, d, TableOf(m, d, vp / ENTRIES));
    }
    OtherKept(m, r, e);
    TidyKept(m, r, e, kernelSize);
  }

  lemma ReleasedApart(m: Memory, d: nat, e: nat, vp: nat, kernelSize: nat)
    requires Tidy(m, d, kernelSize) && Tidy(m, e, kernelSize) && Apart(m, d, e, kernelSize)
    requires vp < PAGE_COUNT && Translate(m, d, vp).Some? && !KernelPage(kernelSize, vp)
    ensures Apart(Released(m, d, vp), d, e, kernelSize) && Apart(Released(m, d, vp), e, d, kernelSize)
  {
    var r := Released(m, d, vp);
    ReleasedOther(m, d, e, vp, kernelSize);
    ReleasedSound(m, d, vp);
    forall p: nat | InFootprint(r, d, p)
      ensures InFootprint(m, d, p)
    {
      FootprintParts(r, d, p);
      if Structure(r, d, p) {
        StructureTaken(m, d, p);
      } else {
        var q: nat :| q < PAGE_COUNT && Translate(r, d, q) == Some(p);
        FrameInFootprint(m, d, q);
      }
    }
    FewerShared(m, r, d, e, kernelSize);
  }

  lemma FewerShared(m: Memory, r: Memory, d: nat, e: nat, kernelSize: nat)
    requires SharesKernelOnly(m, d, e, kernelSize) && SameView(m, r, e) && IsTable(r, d)
    requires forall q: nat :: q < PAGE_COUNT && Translate(r, d, q).Some? ==> Translate(r, d, q) == Translate(m, d, q)
    ensures SharesKernelOnly(r, d, e, kernelSize) && SharesKernelOnly(r, e, d, kernelSize)
  {
  }

  lemma ReleasedTidy(m: Memory, d: nat, vp: nat, kernelSize: nat)
    requires Tidy(m, d, kernelSize) && KernelTaken(m.bits, kernelSize)
    requires vp < PAGE_COUNT && Translate(m, d, vp).Some? && !KernelPage(kernelSize, vp)
    ensures Tidy(Released(m, d, vp), d, kernelSize) && KernelTaken(Released(m, d, vp).bits, kernelSize)
  {
    ReleasedSound(m, d, vp);
    var f := Translate(m, d, vp).value;
    assert !KernelPage(kernelSize, f) && HasLeaf(m, d, vp / ENTRIES, vp % ENTRIES);
    forall p: nat | p < PAGE_COUNT && Taken(m.bits, p) && p != f
      ensures Taken(Released(m, d, vp).bits, p)
    {
      TakenUnmark(m.bits, f, p);
    }
  }

  lemma IsolatedReleased(m: Memory, dirs: seq<nat>, k: nat, vp: nat, kernelSize: nat)
    requires Isolated(m, dirs, kernelSize) && k < |dirs| && vp < PAGE_COUNT
    requires Translate(m, dirs[k], vp).Some? && !KernelPage(kernelSize, vp)
    ensures Isolated(Released(m, dirs[k], vp), dirs, kernelSize)
    ensures forall i :: 0 <= i < |dirs| && i != k ==> SameView(m, Released(m, dirs[k], vp), dirs[i])
  {
    var r := Released(m, dirs[k], vp);
    ReleasedTidy(m, dirs[k], vp, kernelSize);
    forall i | 0 <= i < |dirs| && i != k
      ensures Tidy(r, dirs[i], kernelSize) && SameView(m, r, dirs[i])
      ensures Apart(r, dirs[k], dirs[i], kernelSize) && Apart(r, dirs[i], dirs[k], kernelSize)
    {
      ReleasedOther(m, dirs[k], dirs[i], vp, kernelSize);
      ReleasedApart(m, dirs[k], dirs[i], vp, kernelSize);
    }
    forall i, j | 0 <= i < |dirs| && 0 <= j < |dirs| && i != j
      ensures Apart(r, dirs[i], dirs[j], kernelSize)
    {
      if i != k && j != k {
        ApartKept(m, r, dirs[i], dirs[j], kernelSize);
      }
    }
  }

  lemma IsolatedUnmapped(m: Memory, dirs: seq<nat>, k: nat, vp: nat, kernelSize: nat)
    requires Isolated(m, dirs, kernelSize) && k < |dirs| && vp < PAGE_COUNT && Sound(m, dirs[k])
    requires Translate(m, dirs[k], vp) == None && Mappable(m, dirs[k], vp)
    ensures Isolated(Map(m, dirs[k], vp), dirs, kernelSize)
    ensures forall i :: 0 <= i < |dirs| && i != k ==> SameView(m, Map(m, dirs[k], vp), dirs[i])
  {
    MapGrew(m, dirs[k], vp, kernelSize);
    IsolatedAfter(m, Map(m, dirs[k], vp), dirs, k, kernelSize);
  }

  lemma ViewTwice(m: Memory, s: Memory, r: Memory, e: nat)
    requires SameView(m, s, e) && SameView(s, r, e)
    ensures SameView(m, r, e)
  {
  }

  /** `paging_map` of any page but the kernel's, mapped before or not. */
  lemma IsolatedMapped(m: Memory, dirs: seq<nat>, k: nat, vp: nat, kernelSize: nat)
    requires Isolated(m, dirs, kernelSize) && k < |dirs| && vp < PAGE_COUNT && !KernelPage(kernelSize, vp)
    requires Sound(m, dirs[k]) && Mappable(m, dirs[k], vp)
    ensures Isolated(Map(m, dirs[k], vp), dirs, kernelSize)
    ensures forall i :: 0 <= i < |dirs| && i != k ==> SameView(m, Map(m, dirs[k], vp), dirs[i])
  {
    if Translate(m, dirs[k], vp) == None {
      IsolatedUnmapped(m, dirs, k, vp, kernelSize);
    } else {
      IsolatedRemapped(m, Released(m, dirs[k], vp), dirs, k, vp, kernelSize);
    }
  }

  lemma IsolatedRemapped(m: Memory, s: Memory, dirs: seq<nat>, k: nat, vp: nat, kernelSize: nat)
    requires Isolated(m, dirs, kernelSize) && k < |dirs| && vp < PAGE_COUNT && !KernelPage(kernelSize, vp)
    requires Sound(m, dirs[k]) && Mappable(m, dirs[k], vp) && Translate(m, dirs[k], vp).Some?
    requires s == Released(m, dirs[k], vp)
    ensures Isolated(Map(m, dirs[k], vp), dirs, kernelSize)
    ensures forall i :: 0 <= i < |dirs| && i != k ==> SameView(m, Map(m, dirs[k], vp), dirs[i])
  {
    MapIsReleaseMap(m, dirs[k], vp);
    ReleasedSound(m, dirs[k], vp);
    IsolatedReleased(m, dirs, k, vp, kernelSize);
    IsolatedUnmapped(s, dirs, k, vp, kernelSize);
    forall i | 0 <= i < |dirs| && i != k
      ensures SameView(m, Map(m, dirs[k], vp), dirs[i])
    {
      ViewTwice(m, s, Map(m, dirs[k], vp), dirs[i]);
    }
  }

  // ---------------------------------------------------------------- mapping over a kernel page

  /** No page the allocator would prefer to vp is free: it hands vp out again once vp is released. */
  ghost predicate NextIfReleased(bits: seq<bv8>, vp: nat)
    requires |bits| == BITMAP_SIZE_BYTES
  {
    vp < LOW_PAGES && forall p :: p in LowFree(bits) ==> vp < p
  }

  /**
   * A page mapped onto itself and mapped again gets itself back exactly if no lower page is free; else
   * it is let go.
   */
  lemma RemapFrame(m: Memory, d: nat, vp: nat) returns (f: nat)
    requires Sound(m, d) && vp < PAGE_COUNT && Mappable(m, d, vp) && Translate(m, d, vp) == Some(vp)
    ensures Sound(Map(m, d, vp), d) && Translate(Map(m, d, vp), d, vp) == Some(f)
    ensures f == vp <==> NextIfReleased(m.bits, vp)
    ensures Taken(Map(m, d, vp).bits, vp) <==> f == vp
  {
    var i, j := vp / ENTRIES, vp % ENTRIES;
    assert HasLeaf(m, d, i, j) && LeafOf(m, d, i, j) == vp && Taken(m.bits, vp);
    f := MapKeeps(m, d, vp);
    LowestReleased(m.bits, vp, f);
    LowestIs(Unmark(m.bits, vp), f);
    TakenMark(Unmark(m.bits, vp), f, vp);
    TakenUnmark(m.bits, vp, vp);
  }

  lemma LowestReleased(bits: seq<bv8>, vp: nat, f: nat)
    requires |bits| == BITMAP_SIZE_BYTES && vp < PAGE_COUNT && Taken(bits, vp) && IsLowestFree(Unmark(bits, vp), f)
    ensures f == vp <==> NextIfReleased(bits, vp)
  {
    forall p: nat | p < PAGE_COUNT
      ensures Taken(Unmark(bits, vp), p) <==> p != vp && Taken(bits, p)
    {
      TakenUnmark(bits, vp, p);
    }
    if f != vp {
      assert f in LowFree(bits);
    }
  }

  /** Then nothing changes for anybody. */
  lemma RemapSame(m: Memory, d: nat, vp: nat)
    requires Sound(m, d) && vp < PAGE_COUNT && Mappable(m, d, vp) && Translate(m, d, vp) == Some(vp)
    requires NextIfReleased(m.bits, vp)
    ensures var r := Map(m, d, vp);
            && Sound(r, d) && SameView(m, r, d)
            && (forall p: nat :: p < PAGE_COUNT && Taken(m.bits, p) ==> Taken(r.bits, p))
            && (forall p: nat :: p in m.phys && p != TableOf(m, d, vp / ENTRIES) ==>
                 p in r.phys && r.phys[p] == m.phys[p])
  {
    var r := Map(m, d, vp);
    var f := RemapFrame(m, d, vp);
    MapLeafKeeps(m, d, vp / ENTRIES, vp % ENTRIES);
    forall p: nat | p < PAGE_COUNT && !Taken(r.bits, p)
      ensures !Taken(m.bits, p)
    {
      MapLetsGo(m, d, vp, p);
    }
    LeafSame(m, r, d, vp / ENTRIES, vp % ENTRIES);
  }

  lemma LeafSame(m: Memory, r: Memory, d: nat, i: nat, j: nat)
    requires HasLeafAt(m, d, i, j) && WithLeaf(m, r, d, i, j, LeafOf(m, d, i, j))
    ensures SameView(m, r, d)
  {
    assert forall k, l :: HasLeaf(r, d, k, l) == HasLeaf(m, d, k, l);
    assert forall k, l :: HasLeaf(m, d, k, l) ==> LeafOf(r, d, k, l) == LeafOf(m, d, k, l);
  }

  ghost predicate HasLeafAt(m: Memory, d: nat, i: nat, j: nat) {
    IsTable(m, d) && HasLeaf(m, d, i, j)
  }

  /** A directory whose pages are not those of d keeps its own as they are. */
  lemma RemapStructure(m: Memory, d: nat, e: nat, vp: nat)
    requires Sound(m, d) && Sound(m, e) && Avoids(m, e, d) && vp < PAGE_COUNT && Mappable(m, d, vp)
    requires Translate(m, d, vp) == Some(vp)
    ensures forall p: nat :: Structure(m, e, p) ==> p in Map(m, d, vp).phys && Map(m, d, vp).phys[p] == m.phys[p]
  {
    var t := TableOf(m, d, vp / ENTRIES);
    assert Structure(m, d, t);
    StructureTaken(m, d, t);
    forall p: nat | Structure(m, e, p)
      ensures p != t && p in m.phys
    {
      StructureTaken(m, e, p);
    }
  }

  lemma IsolatedSame(m: Memory, dirs: seq<nat>, k: nat, vp: nat, kernelSize: nat)
    requires Isolated(m, dirs, kernelSize) && k < |dirs| && vp < PAGE_COUNT && Sound(m, dirs[k])
    requires Mappable(m, dirs[k], vp) && Translate(m, dirs[k], vp) == Some(vp) && NextIfReleased(m.bits, vp)
    ensures Isolated(Map(m, dirs[k], vp), dirs, kernelSize)
    ensures forall i :: 0 <= i < |dirs| ==> SameView(m, Map(m, dirs[k], vp), dirs[i])
  {
    var r := Map(m, dirs[k], vp);
    RemapSame(m, dirs[k], vp);
    forall i | 0 <= i < |dirs|
      ensures Tidy(r, dirs[i], kernelSize) && SameView(m, r, dirs[i])
    {
      assert Tidy(m, dirs[i], kernelSize);
      if i != k {
        assert Apart(m, dirs[i], dirs[k], kernelSize);
        RemapStructure(m, dirs[k], dirs[i], vp);
        OtherKept(m, r, dirs[i]);
      }
      TidyKept(m, r, dirs[i], kernelSize);
    }
    forall i, j | 0 <= i < |dirs| && 0 <= j < |dirs| && i != j
      ensures Apart(r, dirs[i], dirs[j], kernelSize)
    {
      ApartKept(m, r, dirs[i], dirs[j], kernelSize);
    }
  }

  /** Otherwise a directory that maps the page onto itself is left with a free page for a frame. */
  lemma RemapRuins(m: Memory, d: nat, e: nat, vp: nat)
    requires Sound(m, d) && Sound(m, e) && Avoids(m, e, d) && vp < PAGE_COUNT && Mappable(m, d, vp)
    requires Translate(m, d, vp) == Some(vp) == Translate(m, e, vp) && !NextIfReleased(m.bits, vp)
    ensures !Sound(Map(m, d, vp), e)
  {
    var r, i, j := Map(m, d, vp), vp / ENTRIES, vp % ENTRIES;
    var f := RemapFrame(m, d, vp);
    RemapStructure(m, d, e, vp);
    assert HasLeaf(m, e, i, j) && Structure(m, e, e) && Structure(m, e, TableOf(m, e, i));
    assert HasLeaf(r, e, i, j) && LeafOf(r, e, i, j) == vp;
  }

  // ---------------------------------------------------------------- runs

  /** A new process gets a directory, or space k gets a page mapped. */
  datatype SpaceOp = NewSpace | MapPage(k: nat, vp: nat)

  datatype World = World(mem: Memory, dirs: seq<nat>)

  /** All spaces are apart, and each maps the kernel. */
  ghost predicate Separate(w: World, kernelSize: nat) {
    && Isolated(w.mem, w.dirs, kernelSize)
    && forall i :: 0 <= i < |w.dirs| ==> MapsKernel(w.mem, w.dirs[i], kernelSize)
  }

  ghost predicate MapsKernel(m: Memory, d: nat, kernelSize: nat) {
    && IsTable(m, d) && kernelSize > 0
    && forall q: nat :: q < PAGE_COUNT && KernelPage(kernelSize, q) ==> Translate(m, d, q) == Some(q)
  }

  /** The allocator returns from the operation. */
  ghost predicate Returns(w: World, op: SpaceOp, kernelSize: nat) {
    && Separate(w, kernelSize)
    && match op
       case NewSpace => |LowFree(w.mem.bits)| > |KernelTables(kernelSize)| + 1
       case MapPage(k, vp) => k < |w.dirs| && vp < PAGE_COUNT && Mappable(w.mem, w.dirs[k], vp)
  }

  /** It maps no kernel page anew, except one the allocator would give straight back. */
  ghost predicate SparesKernel(w: World, op: SpaceOp, kernelSize: nat)
    requires |w.mem.bits| == BITMAP_SIZE_BYTES && kernelSize > 0
  {
    op.MapPage? && KernelPage(kernelSize, op.vp) ==> NextIfReleased(w.mem.bits, op.vp)
  }

  ghost predicate Possible(w: World, op: SpaceOp, kernelSize: nat) {
    Returns(w, op, kernelSize) && SparesKernel(w, op, kernelSize)
  }

  ghost function Step(w: World, op: SpaceOp, kernelSize: nat): World
    requires Returns(w, op, kernelSize)
  {
    match op
    case NewSpace =>
      EmptyReady(w.mem, w.dirs, kernelSize);
      var d := Lowest(w.mem.bits);
      World(InitDirectory(Memory(Mark(w.mem.bits, d), w.mem.phys), d, kernelSize), w.dirs + [d])
    case MapPage(k, vp) => World(Map(w.mem, w.dirs[k], vp), w.dirs)
  }

  /** Spaces other than the one an operation is about are as they were. */
  ghost predicate OthersKept(w: World, v: World, op: SpaceOp) {
    && |w.dirs| <= |v.dirs|
    && forall i :: 0 <= i < |w.dirs| && (op.NewSpace? || i != op.k) ==>
        v.dirs[i] == w.dirs[i] && SameView(w.mem, v.mem, w.dirs[i])
  }

  lemma NewSpaceIsolates(w: World, kernelSize: nat)
    requires Possible(w, NewSpace, kernelSize)
    ensures var v := Step(w, NewSpace, kernelSize); Separate(v, kernelSize) && OthersKept(w, v, NewSpace)
  {
    EmptyReady(w.mem, w.dirs, kernelSize);
    IsolatedWithEmpty(w.mem, w.dirs, kernelSize);
    var d := Lowest(w.mem.bits);
    var m := Memory(Mark(w.mem.bits, d), w.mem.phys);
    var r := InitDirectory(m, d, kernelSize);
    InitGrew(m, d, kernelSize);
    IsolatedAfter(Wiped(m, d), r, w.dirs + [d], |w.dirs|, kernelSize);
    ViewsChain(w.mem, Wiped(m, d), r, w.dirs, d);
    forall q: nat | q < PAGE_COUNT && KernelPage(kernelSize, q)
      ensures Translate(r, d, q) == Some(q)
    {
      InitTranslates(m, d, kernelSize, q);
    }
    KernelKept(w, Step(w, NewSpace, kernelSize), NewSpace, kernelSize);
  }

  lemma KernelKept(w: World, v: World, op: SpaceOp, kernelSize: nat)
    requires Separate(w, kernelSize) && OthersKept(w, v, op)
    ensures forall i :: 0 <= i < |w.dirs| && (op.NewSpace? || i != op.k) ==> MapsKernel(v.mem, v.dirs[i], kernelSize)
  {
    forall i | 0 <= i < |w.dirs| && (op.NewSpace? || i != op.k)
      ensures MapsKernel(v.mem, v.dirs[i], kernelSize)
    {
      assert MapsKernel(w.mem, w.dirs[i], kernelSize) && SameView(w.mem, v.mem, w.dirs[i]);
    }
  }

  lemma MapPageIsolates(w: World, k: nat, vp: nat, kernelSize: nat)
    requires Possible(w, MapPage(k, vp), kernelSize)
    ensures var v := Step(w, MapPage(k, vp), kernelSize); Separate(v, kernelSize) && OthersKept(w, v, MapPage(k, vp))
  {
    assert Tidy(w.mem, w.dirs[k], kernelSize) && MapsKernel(w.mem, w.dirs[k], kernelSize);
    if KernelPage(kernelSize, vp) {
      IsolatedSame(w.mem, w.dirs, k, vp, kernelSize);
    } else {
      IsolatedMapped(w.mem, w.dirs, k, vp, kernelSize);
      var f := MapKeeps(w.mem, w.dirs[k], vp);
    }
    KernelKept(w, Step(w, MapPage(k, vp), kernelSize), MapPage(k, vp), kernelSize);
  }

  /** Mapping over a kernel page that is not given straight back leaves every other space unsound. */
  lemma KernelRemapRuins(w: World, k: nat, vp: nat, kernelSize: nat)
    requires Returns(w, MapPage(k, vp), kernelSize) && !SparesKernel(w, MapPage(k, vp), kernelSize)
    ensures var v := Step(w, MapPage(k, vp), kernelSize);
            !Separate(v, kernelSize) && forall i :: 0 <= i < |v.dirs| && i != k ==> !Sound(v.mem, v.dirs[i])
  {
    var v := Step(w, MapPage(k, vp), kernelSize);
    assert Tidy(w.mem, w.dirs[k], kernelSize) && MapsKernel(w.mem, w.dirs[k], kernelSize);
    var f := RemapFrame(w.mem, w.dirs[k], vp);
    assert !MapsKernel(v.mem, v.dirs[k], kernelSize);
    forall i | 0 <= i < |w.dirs| && i != k
      ensures !Sound(v.mem, w.dirs[i])
    {
      assert Tidy(w.mem, w.dirs[i], kernelSize) && MapsKernel(w.mem, w.dirs[i], kernelSize);
      assert Apart(w.mem, w.dirs[i], w.dirs[k], kernelSize);
      RemapRuins(w.mem, w.dirs[k], w.dirs[i], vp);
    }
  }

  /**
   * An operation that returns keeps all spaces apart exactly if it spares the kernel's pages, and
   * then it changes no translation in a space it is not about.
   */
  lemma StepIsolates(w: World, op: SpaceOp, kernelSize: nat)
    requires Returns(w, op, kernelSize)
    ensures Separate(Step(w, op, kernelSize), kernelSize) <==> SparesKernel(w, op, kernelSize)
    ensures SparesKernel(w, op, kernelSize) ==> OthersKept(w, Step(w, op, kernelSize), op)
  {
    match op
    case NewSpace => NewSpaceIsolates(w, kernelSize);
    case MapPage(k, vp) =>
      if SparesKernel(w, op, kernelSize) {
        MapPageIsolates(w, k, vp, kernelSize);
      } else {
        KernelRemapRuins(w, k, vp, kernelSize);
      }
  }

  lemma ViewsChain(m: Memory, s: Memory, r: Memory, dirs: seq<nat>, d: nat)
    requires forall i :: 0 <= i < |dirs| ==> SameView(m, s, dirs[i])
    requires forall i :: 0 <= i < |dirs + [d]| && i != |dirs| ==> SameView(s, r, (dirs + [d])[i])
    ensures forall i :: 0 <= i < |dirs| ==> SameView(m, r, dirs[i])
  {
    forall i | 0 <= i < |dirs|
      ensures SameView(m, r, dirs[i])
    {
      assert (dirs + [d])[i] == dirs[i];
    }
  }

  ghost predicate CanRun(w: World, ops: seq<SpaceOp>, kernelSize: nat)
    decreases |ops|
  {
    ops == [] || (Possible(w, ops[0], kernelSize) && CanRun(Step(w, ops[0], kernelSize), ops[1..], kernelSize))
  }

  ghost function Run(w: World, ops: seq<SpaceOp>, kernelSize: nat): World
    requires CanRun(w, ops, kernelSize)
    decreases |ops|
  {
    if ops == [] then w else Run(Step(w, ops[0], kernelSize), ops[1..], kernelSize)
  }

  lemma {:induction false} RunIsolates(w: World, ops: seq<SpaceOp>, kernelSize: nat)
    requires Separate(w, kernelSize) && CanRun(w, ops, kernelSize)
    ensures Separate(Run(w, ops, kernelSize), kernelSize)
    decreases |ops|
  {
    if ops != [] {
      StepIsolates(w, ops[0], kernelSize);
      RunIsolates(Step(w, ops[0], kernelSize), ops[1..], kernelSize);
    }
  }

  /** The system before the first process: the kernel's pages taken, no directory. */
  ghost predicate Booted(w: World, kernelSize: nat) {
    && |w.mem.bits| == BITMAP_SIZE_BYTES && Fitting(kernelSize) && KernelTaken(w.mem.bits, kernelSize)
    && w.mem.phys == map[] && w.dirs == []
  }

  lemma ReachableSeparate(w: World, kernelSize: nat, ops: seq<SpaceOp>)
    requires Booted(w, kernelSize) && CanRun(w, ops, kernelSize)
    ensures Separate(Run(w, ops, kernelSize), kernelSize)
  {
    RunIsolates(w, ops, kernelSize);
  }

  /** Two sound directories at different pages, and a frame both reach is a kernel page at its own address in both. */
  ghost predicate OnlyKernelCommon(m: Memory, d: nat, e: nat, q: nat, x: nat, kernelSize: nat)
    requires q < PAGE_COUNT && x < PAGE_COUNT && kernelSize > 0
  {
    && Sound(m, d) && Sound(m, e) && d != e
    && SharedFrame(Translate(m, d, q), Translate(m, e, x), q, x, kernelSize)
  }

  lemma ApartMeans(m: Memory, dirs: seq<nat>, i: nat, j: nat, q: nat, x: nat, kernelSize: nat)
    requires Isolated(m, dirs, kernelSize) && i < |dirs| && j < |dirs| && i != j && q < PAGE_COUNT && x < PAGE_COUNT
    ensures OnlyKernelCommon(m, dirs[i], dirs[j], q, x, kernelSize)
  {
    assert Tidy(m, dirs[i], kernelSize) && Tidy(m, dirs[j], kernelSize);
    assert Apart(m, dirs[i], dirs[j], kernelSize);
    assert Structure(m, dirs[i], dirs[i]);
  }

  /** From the start of the system on, whatever directories are made and pages mapped, only kernel pages are common. */
  lemma SpacesShareKernelOnly(w: World, kernelSize: nat, ops: seq<SpaceOp>, i: nat, j: nat, q: nat, x: nat)
    requires Booted(w, kernelSize) && CanRun(w, ops, kernelSize) && q < PAGE_COUNT && x < PAGE_COUNT && i != j
    ensures var v := Run(w, ops, kernelSize);
            i < |v.dirs| && j < |v.dirs| ==> OnlyKernelCommon(v.mem, v.dirs[i], v.dirs[j], q, x, kernelSize)
  {
    ReachableSeparate(w, kernelSize, ops);
    var v := Run(w, ops, kernelSize);
    if i < |v.dirs| && j < |v.dirs| {
      ApartMeans(v.mem, v.dirs, i, j, q, x, kernelSize);
    }
  }

  /**
   * But in every such state with two spaces or more, freeing any one leaves every other unsound,
   * and the next page handed out is one they still map, or lies below it.
   */
  lemma FreeingRuinsReachable(w: World, kernelSize: nat, ops: seq<SpaceOp>, i: nat, j: nat, r: Memory)
    requires Booted(w, kernelSize) && CanRun(w, ops, kernelSize) && i != j
    requires var v := Run(w, ops, kernelSize);
             i < |v.dirs| && j < |v.dirs| && DirectoryFreed(v.mem, r, v.dirs[i])
    ensures !Sound(r, Run(w, ops, kernelSize).dirs[j])
    ensures LowFree(r.bits) != {} && Lowest(r.bits) <= VGA_GRAPHICS
  {
    ReachableSeparate(w, kernelSize, ops);
    var v := Run(w, ops, kernelSize);
    assert Tidy(v.mem, v.dirs[i], kernelSize) && Tidy(v.mem, v.dirs[j], kernelSize);
    assert MapsKernel(v.mem, v.dirs[i], kernelSize) && MapsKernel(v.mem, v.dirs[j], kernelSize);
    assert KernelPage(kernelSize, VGA_GRAPHICS);
    FreeingRuinsOthers(v.mem, r, v.dirs[i], v.dirs[j]);
  }
}
