/** The page loop of mm_map_range with its rollback (kernel/src/mm/vmm.c:83-104), and how many
    frames it may need.
  */
module MapPages {
  import opened Common
  import opened Pte
  import opened Pmm
  import opened PageTable
  import opened Machine

  // ---- How many frames suffice ----

  function Absent(mem: Memory, root: nat, v: nat, depth: nat): nat
    requires depth <= 3
  {
    if TableAt(mem, root, v, depth) == None then 1 else 0
  }

  // Tables at `depth` that may have to be created for the pages v..last.
  function TablesAhead(mem: Memory, root: nat, v: nat, last: nat, depth: nat): int
    requires depth <= 3
  {
    Up(last, depth) - Up(v, depth) + Absent(mem, root, v, depth)
  }

  // Frames that mapping the pages v..last may consume, page frames included.
  function Need(mem: Memory, root: nat, v: nat, last: nat): int {
    last + 1 - v
    + TablesAhead(mem, root, v, last, 1) + TablesAhead(mem, root, v, last, 2) + TablesAhead(mem, root, v, last, 3)
  }

  // n pages, at most (n + 1022) / 512 page tables, and the same one and two levels up.
  function NeedBound(n: nat): nat {
    n + (n + 1022) / 512 + (n + 524286) / 262144 + (n + 268435454) / 134217728
  }

  // n consecutive numbers touch at most (n + 2c - 2) / c blocks of c.
  lemma {:induction false} BlocksTouched(start: nat, n: nat, c: nat)
    requires n > 0 && c > 0
    ensures (start + n - 1) / c - start / c + 1 <= (n + 2 * c - 2) / c
  {
    var a, b, x := start / c, (start + n - 1) / c, (n + 2 * c - 2) / c;
    assert b * c <= start + n - 1 && a * c > start - c && (x + 1) * c > n + 2 * c - 2;
    assert (b - a + 1) * c == b * c - a * c + c;
    if b - a + 1 >= x + 1 {
      ProductMonotone(b - a + 1, x + 1, c);
    }
  }

  lemma ProductMonotone(x: int, y: int, c: nat)
    requires x >= y
    ensures x * c >= y * c
  {
  }

  lemma {:induction false} NeedIsBounded(mem: Memory, root: nat, start: nat, n: nat)
    requires n > 0
    ensures Need(mem, root, start, start + n - 1) <= NeedBound(n)
  {
    hide TableAt, Up;
    UpBlocks(start);
    UpBlocks(start + n - 1);
    BlocksTouched(start, n, 512);
    BlocksTouched(start, n, 262144);
    BlocksTouched(start, n, 134217728);
  }

  lemma {:induction false} UpBlocks(v: nat)
    ensures Up(v, 3) == v / 512 && Up(v, 2) == v / 262144 && Up(v, 1) == v / 134217728
  {
    UpValues(v);
    DivTwice(v);
  }

  lemma {:induction false} DivTwice(v: nat)
    ensures v / 512 / 512 == v / 262144 && v / 512 / 512 / 512 == v / 134217728
  {
  }

  // Missing counts the absent tables, since nothing exists below an absent table.
  lemma MissingIsAbsent(mem: Memory, root: nat, v: nat)
    ensures Missing(mem, root, v) == Absent(mem, root, v, 1) + Absent(mem, root, v, 2) + Absent(mem, root, v, 3)
  {
    if TableAt(mem, root, v, 3) != None {
      WalkPrefix(mem, root, v, 2, 3);
    }
    if TableAt(mem, root, v, 2) != None {
      WalkPrefix(mem, root, v, 1, 2);
    }
  }

  // After page v is mapped, the pages behind it need at least that much less.
  lemma {:induction false} NeedStep(mem: Memory, tab: Tables, mem': Memory, root: nat, v: nat, last: nat, depth: nat)
    requires 1 <= depth <= 3 && IsRoot(tab, root) && v < last < VPN_LIMIT
    requires WalksKept(mem, mem', tab) && TableAt(mem', root, v, 3) != None
    ensures TablesAhead(mem', root, v + 1, last, depth) + Absent(mem, root, v, depth)
            <= TablesAhead(mem, root, v, last, depth)
  {
    UpSuccessor(v, depth);
    WalkPrefix(mem', root, v, depth, 3);
    if Up(v + 1, depth) == Up(v, depth) {
      TableAtSameTables(mem', root, v, v + 1, depth);
    }
  }

  lemma {:induction false} NeedStepAll(mem: Memory, tab: Tables, mem': Memory, root: nat, v: nat, last: nat)
    requires IsRoot(tab, root) && v < last < VPN_LIMIT
    requires WalksKept(mem, mem', tab) && TableAt(mem', root, v, 3) != None
    ensures Need(mem', root, v + 1, last) + 1 + Missing(mem, root, v) <= Need(mem, root, v, last)
  {
    MissingIsAbsent(mem, root, v);
    hide TableAt, Up, Absent, WalksKept;
    NeedStep(mem, tab, mem', root, v, last, 1);
    NeedStep(mem, tab, mem', root, v, last, 2);
    NeedStep(mem, tab, mem', root, v, last, 3);
  }

  lemma NeedCoversOne(mem: Memory, root: nat, v: nat, last: nat)
    requires v <= last
    ensures Need(mem, root, v, last) >= 1 + Missing(mem, root, v)
  {
    MissingIsAbsent(mem, root, v);
    UpMonotone(v, last, 1);
    UpMonotone(v, last, 2);
    UpMonotone(v, last, 3);
    hide TableAt, Up, Absent;
  }

  // ---- What the loop has done so far ----

  // Translations are as before except for pages [start, start + i) of root that are now mapped.
  predicate OutsideKept(mem: Memory, mem': Memory, root: nat, start: nat, i: nat, s: nat, u: nat) {
    (s == root && start <= u < start + i && Present(Entry(mem', s, u))) || Entry(mem', s, u) == Entry(mem, s, u)
  }

  ghost predicate AllOutsideKept(mem: Memory, mem': Memory, tab: Tables, root: nat, start: nat, i: nat) {
    forall s, u: nat {:trigger OutsideKept(mem, mem', root, start, i, s, u)} ::
      IsRoot(tab, s) && u < VPN_LIMIT ==> OutsideKept(mem, mem', root, start, i, s, u)
  }

  // Page u of root is mapped with the given flags to a frame that no page had before.
  predicate MappedNew(mem: Memory, pages0: Pages, root: nat, flags: nat, u: nat) {
    flags < PAGE_SIZE
    && Entry(mem, root, u) == MakeEntry(FrameOf(Entry(mem, root, u)), flags) && FrameOf(Entry(mem, root, u)) !in pages0
  }

  ghost predicate RangeMapped(mem: Memory, pages0: Pages, root: nat, flags: nat, start: nat, i: nat) {
    forall u: nat {:trigger MappedNew(mem, pages0, root, flags, u)} ::
      start <= u < start + i ==> MappedNew(mem, pages0, root, flags, u)
  }

  // New pages belong to [lo, hi) of root.
  ghost predicate PagesGrowIn(pages0: Pages, pages: Pages, root: nat, lo: nat, hi: nat) {
    && (forall f :: f in pages0 ==> f in pages && pages[f] == pages0[f])
    && (forall f :: f in pages && f !in pages0 ==> pages[f].root == root && lo <= pages[f].vpn < hi)
  }

  ghost predicate RangeUnmapped(mem: Memory, root: nat, start: nat, n: nat) {
    forall u: nat {:trigger Entry(mem, root, u)} :: start <= u < start + n ==> Entry(mem, root, u) == 0
  }

  ghost predicate Structure(m0: Memory, t0: Tables, m1: Memory, t1: Tables, root: nat) {
    TabGrows(t0, t1, root) && MemGrows(m0, m1, t0, t1, root) && WalksKept(m0, m1, t0)
  }

  lemma {:induction false} StructureRefl(m0: Memory, t0: Tables, root: nat)
    ensures Structure(m0, t0, m0, t0, root)
  {
  }

  lemma {:induction false} StructureTrans(m0: Memory, t0: Tables, m1: Memory, t1: Tables, m2: Memory, t2: Tables,
                                          root: nat)
    requires Structure(m0, t0, m1, t1, root) && Structure(m1, t1, m2, t2, root)
    ensures Structure(m0, t0, m2, t2, root)
  {
    hide TableAt;
    assert forall r :: IsRoot(t0, r) ==> IsRoot(t1, r);
    forall r, v: nat, depth: nat | IsRoot(t0, r) && v < VPN_LIMIT ensures WalkKept(m0, m2, r, v, depth) {
      assert WalkKept(m0, m1, r, v, depth) && WalkKept(m1, m2, r, v, depth);
    }
  }

  lemma {:induction false} StructureAllows(m0: Memory, t0: Tables, m1: Memory, t1: Tables, m2: Memory, root: nat,
                                           fl: Rights)
    requires Structure(m0, t0, m1, t1, root) && TablesAllow(m0, m1, t0, fl) && TablesAllow(m1, m2, t1, fl)
    ensures TablesAllow(m0, m2, t0, fl)
  {
    hide WalksKept, MemGrows;
    RootsKept(t0, t1, root);
    AllowTrans(m0, t0, m1, t1, m2, fl);
  }

  // Each page of the range is mapped with these rights in its own entry, or its entry is 0.
  ghost predicate MappedOrZero(mem: Memory, root: nat, start: nat, n: nat, fl: Rights) {
    forall v: nat {:trigger Entry(mem, root, v)} :: start <= v < start + n ==>
      Entry(mem, root, v) == 0 || (Present(Entry(mem, root, v)) && RightsOf(Entry(mem, root, v)) == fl)
  }

  lemma UnmappedIsZero(mem: Memory, root: nat, start: nat, n: nat, fl: Rights)
    requires RangeUnmapped(mem, root, start, n)
    ensures MappedOrZero(mem, root, start, n, fl)
  {
    hide Entry;
  }

  // One more page of the range is mapped with these rights, or left alone.
  lemma {:induction false} MappedOrZeroStep(m1: Memory, t1: Tables, m2: Memory, kroot: nat, root: nat, start: nat,
                                            i: nat, e: Word, fl: Rights)
    requires MappedOrZero(m1, root, start, i, fl) && IsRoot(t1, root) && root != kroot && start + i < USER_LIMIT
    requires FlatUpdate(m1, m2, t1, kroot, root, start + i, e)
    requires e == 0 || (Present(e) && RightsOf(e) == fl)
    ensures MappedOrZero(m2, root, start, i + 1, fl)
  {
    hide Entry, Present, RightsOf;
    forall v: nat | start <= v < start + (i + 1)
      ensures Entry(m2, root, v) == 0 || (Present(Entry(m2, root, v)) && RightsOf(Entry(m2, root, v)) == fl)
    {
      assert v < start + i ==> Entry(m2, root, v) == Entry(m1, root, v);
    }
  }

  lemma {:induction false} SameIsUpdate(m1: Memory, m2: Memory, tab: Tables, kroot: nat, root: nat, v: nat)
    requires SameEntries(m1, m2, tab) && IsRoot(tab, root) && root != kroot && v < USER_LIMIT
              && Entry(m1, root, v) == 0
    ensures FlatUpdate(m1, m2, tab, kroot, root, v, 0)
  {
    hide Entry;
  }

  // One more page mapped.
  lemma {:induction false} RangeStep(m0: Memory, t0: Tables, p0: Pages, m1: Memory, t1: Tables, p1: Pages, m2: Memory,
                                     kroot: nat, root: nat, flags: nat, start: nat, i: nat, f: nat)
    requires TabGrows(t0, t1, root) && root != kroot && flags < PAGE_SIZE && flags % 2 == 1 && f < FRAME_LIMIT
    requires AllOutsideKept(m0, m1, t0, root, start, i) && PagesGrowIn(p0, p1, root, start, start + i)
    requires FlatUpdate(m1, m2, t1, kroot, root, start + i, MakeEntry(f, flags)) && IsRoot(t1, root)
    requires start + i < USER_LIMIT && f !in p1
    ensures AllOutsideKept(m0, m2, t0, root, start, i + 1)
    ensures PagesGrowIn(p0, p1[f := PageInfo(root, start + i)], root, start, start + i + 1)
    ensures RangeMapped(m1, p0, root, flags, start, i) ==> RangeMapped(m2, p0, root, flags, start, i + 1)
  {
    hide Entry;
    assert forall r :: IsRoot(t0, r) ==> IsRoot(t1, r);
    EntryRoundTrip(f, flags);
    hide FrameOf;
    var next := i + 1;
    forall s, u: nat | IsRoot(t0, s) && u < VPN_LIMIT ensures OutsideKept(m0, m2, root, start, next, s, u) {
      assert OutsideKept(m0, m1, root, start, i, s, u);
    }
    if RangeMapped(m1, p0, root, flags, start, i) {
      forall u: nat | start <= u < start + i + 1 ensures MappedNew(m2, p0, root, flags, u) {
        if u < start + i {
          assert MappedNew(m1, p0, root, flags, u);
        }
      }
    }
  }

  lemma {:induction false} SkipStep(m0: Memory, t0: Tables, p0: Pages, m1: Memory, t1: Tables, p1: Pages, m2: Memory,
                                    root: nat, start: nat, i: nat)
    requires TabGrows(t0, t1, root) && SameEntries(m1, m2, t1)
    requires AllOutsideKept(m0, m1, t0, root, start, i) && PagesGrowIn(p0, p1, root, start, start + i)
    ensures AllOutsideKept(m0, m2, t0, root, start, i + 1) && PagesGrowIn(p0, p1, root, start, start + i + 1)
  {
    hide Entry;
    assert forall r :: IsRoot(t0, r) ==> IsRoot(t1, r);
    var next := i + 1;
    forall s, u: nat | IsRoot(t0, s) && u < VPN_LIMIT ensures OutsideKept(m0, m2, root, start, next, s, u) {
      assert OutsideKept(m0, m1, root, start, i, s, u);
    }
  }

  lemma {:induction false} MakeStructure(m0: Memory, t0: Tables, m1: Memory, t1: Tables, root: nat)
    requires TabGrows(t0, t1, root) && MemGrows(m0, m1, t0, t1, root) && WalksKept(m0, m1, t0)
    ensures Structure(m0, t0, m1, t1, root)
  {
  }

  // The page about to be mapped is still unmapped.
  lemma {:induction false} StillUnmapped(m0: Memory, t0: Tables, m1: Memory, root: nat, start: nat, i: nat, n: nat)
    requires IsRoot(t0, root) && i < n && start + n <= USER_LIMIT
    requires AllOutsideKept(m0, m1, t0, root, start, i) && RangeUnmapped(m0, root, start, n)
    ensures forall u: nat :: start + i <= u < start + n ==> Entry(m1, root, u) == 0
  {
    hide Entry;
    forall u: nat | start + i <= u < start + n ensures Entry(m1, root, u) == 0 {
      assert OutsideKept(m0, m1, root, start, i, root, u);
      assert Entry(m0, root, u) == 0;
    }
  }

  lemma {:induction false} Widen(m0: Memory, m1: Memory, t0: Tables, root: nat, start: nat, i: nat, n: nat)
    requires AllOutsideKept(m0, m1, t0, root, start, i) && i <= n
    ensures AllOutsideKept(m0, m1, t0, root, start, n)
  {
    hide Entry;
    forall s, u: nat | IsRoot(t0, s) && u < VPN_LIMIT ensures OutsideKept(m0, m1, root, start, n, s, u) {
      assert OutsideKept(m0, m1, root, start, i, s, u);
    }
  }

  // One page taken back.
  lemma {:induction false} UndoStep(m0: Memory, t0: Tables, m1: Memory, m2: Memory, t1: Tables, kroot: nat, root: nat,
                                    start: nat, n: nat, v: nat)
    requires TabGrows(t0, t1, root) && root != kroot && IsRoot(t1, root)
    requires AllOutsideKept(m0, m1, t0, root, start, n) && start <= v < start + n <= USER_LIMIT
    requires if Present(Entry(m1, root, v)) then FlatUpdate(m1, m2, t1, kroot, root, v, 0) else m2 == m1
    requires IsRoot(t0, root) && Entry(m0, root, v) == 0
    ensures AllOutsideKept(m0, m2, t0, root, start, n) && Entry(m2, root, v) == 0
    ensures forall u: nat :: u < USER_LIMIT && u != v ==> Entry(m2, root, u) == Entry(m1, root, u)
  {
    hide Entry;
    assert forall r :: IsRoot(t0, r) ==> IsRoot(t1, r);
    forall s, u: nat | IsRoot(t0, s) && u < VPN_LIMIT ensures OutsideKept(m0, m2, root, start, n, s, u) {
      assert OutsideKept(m0, m1, root, start, n, s, u);
    }
    assert OutsideKept(m0, m1, root, start, n, root, v);
  }

  // A page taken back was not there before the range was mapped.
  lemma {:induction false} UndoneIsNew(m0: Memory, t0: Tables, p0: Pages, kroot: nat, root: nat, start: nat, n: nat,
                                       f: nat, v: nat)
    requires PagesWf(m0, t0, p0, kroot) && RangeUnmapped(m0, root, start, n) && start <= v < start + n
    ensures f in p0 ==> p0[f] != PageInfo(root, v)
  {
    hide Entry;
    if f in p0 && p0[f] == PageInfo(root, v) {
      HeldPage(m0, t0, p0, kroot, f);
    }
  }

  lemma {:induction false} PagesRestored(mem: Memory, tab: Tables, p0: Pages, pages: Pages, kroot: nat, root: nat,
                                         start: nat, n: nat)
    requires PagesWf(mem, tab, pages, kroot) && PagesGrowIn(p0, pages, root, start, start + n)
    requires RangeUnmapped(mem, root, start, n)
    ensures pages == p0
  {
    hide Entry;
    forall f | f in pages ensures f in p0 {
      if f !in p0 {
        UndoneIsNew(mem, tab, pages, kroot, root, start, n, f, pages[f].vpn);
      }
    }
  }

  // The rollback loop of mm_map_range: pages start..start+i are unmapped and given back.
  method Rollback(m: Machine, root: nat, start: nat, i: nat, n: nat, ghost m0: Memory, ghost t0: Tables,
                  ghost p0: Pages, ghost fl: Rights)
    requires m.Valid() && IsRoot(m.tab, root) && root != m.kroot && i <= n && start + n <= USER_LIMIT
    requires PagesWf(m0, t0, p0, m.kroot) && RangeUnmapped(m0, root, start, n) && IsRoot(t0, root)
    requires Structure(m0, t0, m.mem, m.tab, root) && AllOutsideKept(m0, m.mem, t0, root, start, n)
    requires PagesGrowIn(p0, m.pages, root, start, start + n) && TablesAllow(m0, m.mem, t0, fl)
    requires forall u: nat :: start + i <= u < start + n ==> Entry(m.mem, root, u) == 0
    modifies m`mem, m`stray, m`pages, m.pmm, m.pmm.bitmap
    ensures m.Valid() && m.stray == old(m.stray)
    ensures Structure(m0, t0, m.mem, m.tab, root) && AllOutsideKept(m0, m.mem, t0, root, start, n)
    ensures RangeUnmapped(m.mem, root, start, n) && m.pages == p0
    ensures PagesGrowIn(p0, m.pages, root, start, start + n) && TablesAllow(m0, m.mem, t0, fl)
  {
    hide TableWf, PagesWf, Entry, TableAt, FlatUpdate, WalksKept, MemGrows, AllOutsideKept, Up, Idx, CountFree,
      BitsOf, RangeUnmapped, OwnsPage, FrameOf, Machine.Valid, TablesAllow;
    var j := 0;
    while j < i
      invariant j <= i && m.Valid() && m.stray == old(m.stray) && m.tab == old(m.tab)
      invariant Structure(m0, t0, m.mem, m.tab, root) && AllOutsideKept(m0, m.mem, t0, root, start, n)
      invariant PagesGrowIn(p0, m.pages, root, start, start + n) && TablesAllow(m0, m.mem, t0, fl)
      invariant forall u: nat :: start <= u < start + j ==> Entry(m.mem, root, u) == 0
      invariant forall u: nat :: start + i <= u < start + n ==> Entry(m.mem, root, u) == 0
    {
      ghost var m1 := m.mem;
      assert OwnsPage(m.kroot, root, start + j) by {
        UserPageIsOwned(m.kroot, root, start + j);
      }
      m.UnmapPage(root, start + j);
      if Present(Entry(m1, root, start + j)) {
        UndoneIsNew(m0, t0, p0, m.kroot, root, start, n, FrameOf(Entry(m1, root, start + j)), start + j);
      }
      UnmappedAt(m0, root, start, n, start + j);
      UndoStep(m0, t0, m1, m.mem, m.tab, m.kroot, root, start, n, start + j);
      MakeStructure(m1, m.tab, m.mem, m.tab, root);
      AllowsAll(m1, m.mem, m.tab, fl);
      StructureAllows(m0, t0, m1, m.tab, m.mem, root, fl);
      StructureTrans(m0, t0, m1, m.tab, m.mem, m.tab, root);
      j := j + 1;
    }
    m.Parts();
    MakeUnmapped(m.mem, root, start, n);
    PagesRestored(m.mem, m.tab, p0, m.pages, m.kroot, root, start, n);
  }

  lemma UserPageIsOwned(kroot: nat, root: nat, v: nat)
    requires root != kroot && v < USER_LIMIT
    ensures OwnsPage(kroot, root, v) && Home(kroot, root, v) == root
  {
  }

  lemma UnmappedAt(mem: Memory, root: nat, start: nat, n: nat, v: nat)
    requires RangeUnmapped(mem, root, start, n) && start <= v < start + n
    ensures Entry(mem, root, v) == 0
  {
  }

  lemma MakeUnmapped(mem: Memory, root: nat, start: nat, n: nat)
    requires forall u: nat :: start <= u < start + n ==> Entry(mem, root, u) == 0
    ensures RangeUnmapped(mem, root, start, n)
  {
  }

  // The page loop of mm_map_range on pages start..start+n of the space `root`; false after a
  // failed page allocation, when the pages mapped so far have been taken back.
  method MapAll(m: Machine, root: nat, start: nat, n: nat, flags: nat) returns (ok: bool)
    requires m.Valid() && IsRoot(m.tab, root) && root != m.kroot
    requires n > 0 && start + n <= USER_LIMIT && flags < PAGE_SIZE && flags % 2 == 1
    requires RangeUnmapped(m.mem, root, start, n)
    modifies m`mem, m`tab, m`stray, m`failures, m`pages, m.pmm, m.pmm.bitmap
    ensures m.Valid() && IsRoot(m.tab, root) && Losses(old(m.stray), old(m.failures), m.stray, m.failures)
    ensures Structure(old(m.mem), old(m.tab), m.mem, m.tab, root)
    ensures AllOutsideKept(old(m.mem), m.mem, old(m.tab), root, start, n)
    ensures PagesGrowIn(old(m.pages), m.pages, root, start, start + n)
    // enough frames: success, and nothing is lost
    ensures old(m.pmm.freePages) >= Need(old(m.mem), root, start, start + n - 1) ==>
              ok && m.stray == old(m.stray)
              && old(m.pmm.freePages) - m.pmm.freePages <= Need(old(m.mem), root, start, start + n - 1)
    ensures LostLast(old(m.failures), old(m.pmm.freePages), m.failures, m.pmm.freePages, ok)
    ensures ok ==> m.pmm.freePages <= old(m.pmm.freePages)
    // success with nothing lost: every page has a new frame
    ensures ok && m.stray == old(m.stray) ==> RangeMapped(m.mem, old(m.pages), root, flags, start, n)
    // failure: no page of the range is mapped and every page frame is back
    ensures !ok ==> RangeUnmapped(m.mem, root, start, n) && m.pages == old(m.pages)
    // a page that is mapped has the flags' rights in its entry; new tables are hung under the flags,
    // also when the call fails
    ensures MappedOrZero(m.mem, root, start, n, RightsOf(flags))
    ensures TablesAllow(old(m.mem), m.mem, old(m.tab), RightsOf(flags))
  {
    hide TableWf, PagesWf, Entry, TableAt, Missing, FlatUpdate, SameEntries, WalksKept, MemGrows, TabGrows, Structure,
      AllOutsideKept, PagesGrowIn, RangeMapped, Up, Idx, CountFree, BitsOf, Need, Machine.Valid, Losses, TablesAllow,
      RightsOf, UpperRights, MappedOrZero;
    ghost var m0, t0, p0, last, fl := m.mem, m.tab, m.pages, start + n - 1, RightsOf(flags);
    ghost var s0, n0 := m.stray, m.failures;
    LossesRefl(s0, n0);
    m.Parts();
    StructureRefl(m0, t0, root);
    AllowRefl(m0, t0, fl);
    StartOfRange(m0, t0, p0, root, flags, start);
    UnmappedIsZero(m0, root, start, 0, fl);
    var i := 0;
    while i < n
      invariant i <= n && m.Valid() && IsRoot(m.tab, root) && Losses(s0, n0, m.stray, m.failures)
      invariant Structure(m0, t0, m.mem, m.tab, root) && TablesAllow(m0, m.mem, t0, fl)
      invariant AllOutsideKept(m0, m.mem, t0, root, start, i) && PagesGrowIn(p0, m.pages, root, start, start + i)
      invariant m.stray == old(m.stray) ==> RangeMapped(m.mem, p0, root, flags, start, i)
      invariant MappedOrZero(m.mem, root, start, i, fl)
      invariant m.pmm.freePages <= old(m.pmm.freePages)
      invariant LostLast(n0, old(m.pmm.freePages), m.failures, m.pmm.freePages, true)
      invariant old(m.pmm.freePages) >= Need(m0, root, start, last) ==>
        m.stray == old(m.stray)
        && (i < n ==> old(m.pmm.freePages) - m.pmm.freePages
                      <= Need(m0, root, start, last) - Need(m.mem, root, start + i, last))
        && (i == n ==> old(m.pmm.freePages) - m.pmm.freePages <= Need(m0, root, start, last))
    {
      ghost var m1, t1, p1, s1, n1 := m.mem, m.tab, m.pages, m.stray, m.failures;
      NeedCoversOne(m1, root, start + i, last);
      StillUnmapped(m0, t0, m1, root, start, i, n);
      UserPageIsOwned(m.kroot, root, start + i);
      var f, mapped := m.MapNewPage(root, start + i, flags);
      LossesNone(s0, n0, s1, n1);
      LossesStep(s0, n0, s1, n1, m.stray, m.failures, f, f != 0 && !mapped);
      m.Parts();
      RootsKept(t1, m.tab, root);
      MakeStructure(m1, t1, m.mem, m.tab, root);
      StructureAllows(m0, t0, m1, t1, m.mem, root, fl);
      StructureTrans(m0, t0, m1, t1, m.mem, m.tab, root);
      if f == 0 {
        Widen(m0, m.mem, t0, root, start, i, n);
        WidenPages(p0, m.pages, root, start, start + i, start + n);
        Rollback(m, root, start, i, n, m0, t0, p0, fl);
        UnmappedIsZero(m.mem, root, start, n, fl);
        return false;
      }
      GrowsOf(m0, t0, m1, t1, root);
      if mapped {
        LeafRights(f, flags);
        MappedOrZeroStep(m1, t1, m.mem, m.kroot, root, start, i, MakeEntry(f, flags), fl);
        RangeStep(m0, t0, p0, m1, t1, p1, m.mem, m.kroot, root, flags, start, i, f);
        if i + 1 < n {
          NeedStepAll(m1, t1, m.mem, root, start + i, last);
        }
      } else {
        SkipStep(m0, t0, p0, m1, t1, p1, m.mem, root, start, i);
        SameIsUpdate(m1, m.mem, t1, m.kroot, root, start + i);
        MappedOrZeroStep(m1, t1, m.mem, m.kroot, root, start, i, 0, fl);
      }
      i := i + 1;
    }
    ok := true;
  }

  lemma LeafRights(f: nat, flags: nat)
    requires f < FRAME_LIMIT && flags < PAGE_SIZE && flags % 2 == 1
    ensures Present(MakeEntry(f, flags)) && RightsOf(MakeEntry(f, flags)) == RightsOf(flags)
  {
    EntryRoundTrip(f, flags);
    EntryRights(f, flags);
  }

  lemma {:induction false} GrowsOf(m0: Memory, t0: Tables, m1: Memory, t1: Tables, root: nat)
    requires Structure(m0, t0, m1, t1, root)
    ensures TabGrows(t0, t1, root)
  {
  }

  lemma {:induction false} WidenPages(p0: Pages, pages: Pages, root: nat, lo: nat, mid: nat, hi: nat)
    requires PagesGrowIn(p0, pages, root, lo, mid) && mid <= hi
    ensures PagesGrowIn(p0, pages, root, lo, hi)
  {
  }

  lemma {:induction false} StartOfRange(m0: Memory, t0: Tables, p0: Pages, root: nat, flags: nat, start: nat)
    ensures AllOutsideKept(m0, m0, t0, root, start, 0) && PagesGrowIn(p0, p0, root, start, start + 0)
    ensures RangeMapped(m0, p0, root, flags, start, 0)
  {
  }
}
