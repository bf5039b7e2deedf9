/** The running memory system: physical memory, the frame allocator and the page tables in it
    (kernel/src/mm/paging.c over kernel/src/mm/pmm.c).

    Every busy frame is exactly one of: a table (`tab`), a mapped page (`pages`) or a stray
    frame (`stray`: reserved at boot, just allocated and not yet mapped, or lost because
    vmm_map_page could not build its tables).
  */
module Machine {
  import opened Common
  import opened Pte
  import opened PageTable
  import opened Pmm

  // KERNEL_HEAP_BASE and KERNEL_STACK_BASE as page numbers: PML4 slots 288 and 352.
  const HEAP_SLOT: nat := 288
  const STACK_SLOT: nat := 352

  // Heap and stack pages are for the kernel alone, and writable.
  const KERNEL_RIGHTS := Rights(true, false)

  predicate KernelPage(e: Word) { Present(e) && RightsOf(e) == KERNEL_RIGHTS }

  predicate InHeapWindow(v: nat) { v < VPN_LIMIT && Idx(v, 0) == HEAP_SLOT }

  predicate InStackWindow(v: nat) { v < VPN_LIMIT && Idx(v, 0) == STACK_SLOT }

  // The pages whose frames belong to a space: its user half, or the kernel's two windows.
  predicate OwnsPage(kroot: nat, r: nat, v: nat) {
    if r == kroot then InHeapWindow(v) || InStackWindow(v) else v < USER_LIMIT
  }

  ghost predicate Accounted(bits: seq<bool>, tab: Tables, pages: Pages, stray: set<nat>) {
    && (forall f :: f in tab || f in pages || f in stray ==> f < |bits|)
    && (forall f :: 0 <= f < |bits| ==> (bits[f] <==> f in tab || f in pages || f in stray))
    && (forall f :: f in tab ==> f !in pages && f !in stray)
    && (forall f :: f in pages ==> f !in stray)
  }

  ghost function BusySet(bits: seq<bool>): set<nat> { set f: nat | f < |bits| && bits[f] }

  // Between two moments, every frame that was lost was lost to a failed table allocation, one for
  // one: `stray` has grown by as many frames as calls of get_next_table have failed.
  ghost predicate Losses(s0: set<nat>, n0: nat, s1: set<nat>, n1: nat) {
    s0 <= s1 && n0 <= n1 && |s1| == |s0| + n1 - n0
  }

  lemma LossesRefl(s: set<nat>, n: nat)
    ensures Losses(s, n, s, n)
  {
  }

  lemma LossesGrow(s0: set<nat>, n0: nat, s1: set<nat>, n1: nat)
    requires Losses(s0, n0, s1, n1)
    ensures n0 <= n1
  {
  }

  lemma LossesTrans(s0: set<nat>, n0: nat, s1: set<nat>, n1: nat, s2: set<nat>, n2: nat)
    requires Losses(s0, n0, s1, n1) && Losses(s1, n1, s2, n2)
    ensures Losses(s0, n0, s2, n2)
  {
  }

  // One page frame more, or none.
  lemma LossesStep(s0: set<nat>, n0: nat, s1: set<nat>, n1: nat, s2: set<nat>, n2: nat, f: nat, lost: bool)
    requires Losses(s0, n0, s1, n1)
    requires if lost then f !in s1 && s2 == s1 + {f} && n2 == n1 + 1 else s2 == s1 && n2 == n1
    ensures Losses(s0, n0, s2, n2)
  {
  }

  // No failure, no loss, and the other way round.
  lemma LossesNone(s0: set<nat>, n0: nat, s1: set<nat>, n1: nat)
    requires Losses(s0, n0, s1, n1)
    ensures s0 <= s1 && n0 <= n1 && (n1 == n0 <==> s1 == s0)
  {
    if s1 != s0 {
      assert !(s1 <= s0);
      var x :| x in s1 && x !in s0;
      SmallerSet(s0, s1 - {x});
    }
  }

  lemma {:induction false} SmallerSet(s: set<nat>, t: set<nat>)
    requires s <= t
    ensures |s| <= |t|
  {
    if s != {} {
      var x :| x in s;
      SmallerSet(s - {x}, t - {x});
    }
  }

  // At most one frame was lost, the last one there was; if the call was not undone, none is left.
  predicate LostLast(n0: nat, free0: nat, n1: nat, free1: nat, done: bool) {
    n1 == n0 || (n1 == n0 + 1 && free0 > 0 && (done ==> free1 == 0))
  }

  lemma NoneLost(n: nat, free0: nat, free1: nat, done: bool)
    ensures LostLast(n, free0, n, free1, done)
  {
  }

  lemma LostLastStep(n0: nat, free0: nat, n1: nat, free1: nat, n2: nat, free2: nat, done: bool)
    requires LostLast(n0, free0, n1, free1, true) && LostLast(n1, free1, n2, free2, done) && free1 <= free0
    requires free1 == 0 && done ==> free2 == 0
    ensures LostLast(n0, free0, n2, free2, done)
  {
  }

  lemma LostUndone(n0: nat, free0: nat, n1: nat, free1: nat)
    requires LostLast(n0, free0, n1, free1, true)
    ensures forall free: nat :: LostLast(n0, free0, n1, free, false)
  {
  }

  predicate PageHeld(mem: Memory, tab: Tables, pages: Pages, kroot: nat, f: nat)
    requires f in pages
  {
    var p := pages[f];
    && f < |mem| && IsRoot(tab, p.root) && p.vpn < VPN_LIMIT && OwnsPage(kroot, p.root, p.vpn)
    && Present(Entry(mem, p.root, p.vpn)) && FrameOf(Entry(mem, p.root, p.vpn)) == f
  }

  predicate PageListed(mem: Memory, tab: Tables, pages: Pages, kroot: nat, r: nat, v: nat) {
    IsRoot(tab, r) && v < VPN_LIMIT && OwnsPage(kroot, r, v) && Present(Entry(mem, r, v)) ==>
      FrameOf(Entry(mem, r, v)) in pages && pages[FrameOf(Entry(mem, r, v))] == PageInfo(r, v)
  }

  // The owned pages are exactly the present entries of the spaces' own halves.
  ghost predicate PagesWf(mem: Memory, tab: Tables, pages: Pages, kroot: nat) {
    && (forall f {:trigger PageHeld(mem, tab, pages, kroot, f)} :: f in pages ==> PageHeld(mem, tab, pages, kroot, f))
    && (forall r: nat, v: nat {:trigger PageListed(mem, tab, pages, kroot, r, v)} ::
          PageListed(mem, tab, pages, kroot, r, v))
  }

  lemma {:induction false} ListedPage(mem: Memory, tab: Tables, pages: Pages, kroot: nat, r: nat, v: nat)
    requires PagesWf(mem, tab, pages, kroot) && IsRoot(tab, r) && v < VPN_LIMIT && OwnsPage(kroot, r, v)
    requires Present(Entry(mem, r, v))
    ensures FrameOf(Entry(mem, r, v)) in pages && pages[FrameOf(Entry(mem, r, v))] == PageInfo(r, v)
  {
    assert PageListed(mem, tab, pages, kroot, r, v);
  }

  lemma {:induction false} HeldPage(mem: Memory, tab: Tables, pages: Pages, kroot: nat, f: nat)
    requires PagesWf(mem, tab, pages, kroot) && f in pages
    ensures PageHeld(mem, tab, pages, kroot, f)
  {
  }

  // ---- Keeping the owned pages in step with the flat view ----

  lemma {:induction false} RootsKept(tab: Tables, tab': Tables, root: nat)
    requires TabGrows(tab, tab', root)
    ensures forall r :: IsRoot(tab', r) <==> IsRoot(tab, r)
  {
    forall r ensures IsRoot(tab', r) <==> IsRoot(tab, r) {
      assert r in tab ==> r in tab' && tab'[r] == tab[r];
    }
  }

  lemma {:induction false} PagesKept(mem: Memory, tab: Tables, mem': Memory, tab': Tables, pages: Pages, kroot: nat,
                                     root: nat)
    requires PagesWf(mem, tab, pages, kroot) && |mem'| == |mem|
    requires TabGrows(tab, tab', root) && SameEntries(mem, mem', tab)
    ensures PagesWf(mem', tab', pages, kroot)
  {
    hide Entry, OwnsPage, FrameOf, Present;
    RootsKept(tab, tab', root);
    forall f | f in pages ensures PageHeld(mem', tab', pages, kroot, f) {
      assert PageHeld(mem, tab, pages, kroot, f);
    }
    forall r: nat, v: nat ensures PageListed(mem', tab', pages, kroot, r, v) {
      assert PageListed(mem, tab, pages, kroot, r, v);
    }
  }

  lemma {:induction false} PagesAdd(mem: Memory, tab: Tables, mem': Memory, tab': Tables, pages: Pages, kroot: nat,
                                    root: nat, v: nat, f: nat, e: Word)
    requires PagesWf(mem, tab, pages, kroot) && |mem'| == |mem|
    requires IsRoot(tab, root) && TabGrows(tab, tab', root) && FlatUpdate(mem, mem', tab, kroot, root, v, e)
    requires v < VPN_LIMIT && OwnsPage(kroot, root, v) && !Present(Entry(mem, root, v))
    requires Present(e) && FrameOf(e) == f && f < |mem| && f !in pages
    ensures PagesWf(mem', tab', pages[f := PageInfo(root, v)], kroot)
  {
    hide Entry, FrameOf, Present;
    RootsKept(tab, tab', root);
    UpValues(v);
    var pages' := pages[f := PageInfo(root, v)];
    forall g | g in pages' ensures PageHeld(mem', tab', pages', kroot, g) {
      if g != f {
        assert PageHeld(mem, tab, pages, kroot, g);
        UpValues(pages[g].vpn);
      }
    }
    forall r: nat, u: nat ensures PageListed(mem', tab', pages', kroot, r, u) {
      assert PageListed(mem, tab, pages, kroot, r, u);
      UpValues(u);
    }
  }

  lemma {:induction false} PagesDrop(mem: Memory, mem': Memory, tab: Tables, pages: Pages, kroot: nat, root: nat,
                                     v: nat)
    requires PagesWf(mem, tab, pages, kroot) && |mem'| == |mem|
    requires IsRoot(tab, root) && FlatUpdate(mem, mem', tab, kroot, root, v, 0)
    requires v < VPN_LIMIT && OwnsPage(kroot, root, v) && Present(Entry(mem, root, v))
    ensures FrameOf(Entry(mem, root, v)) in pages && pages[FrameOf(Entry(mem, root, v))] == PageInfo(root, v)
    ensures PagesWf(mem', tab, pages - {FrameOf(Entry(mem, root, v))}, kroot)
  {
    hide Entry, FrameOf;
    UpValues(v);
    assert PageListed(mem, tab, pages, kroot, root, v);
    var f := FrameOf(Entry(mem, root, v));
    var pages' := pages - {f};
    forall g | g in pages' ensures PageHeld(mem', tab, pages', kroot, g) {
      assert PageHeld(mem, tab, pages, kroot, g);
      UpValues(pages[g].vpn);
    }
    forall r: nat, u: nat ensures PageListed(mem', tab, pages', kroot, r, u) {
      assert PageListed(mem, tab, pages, kroot, r, u);
      UpValues(u);
    }
  }

  // ---- Growth of the kernel's own part ----

  // Apart from pages of one PML4 slot that were not mapped before, every translation stays.
  predicate EntryKept(mem: Memory, mem': Memory, slot: nat, r: nat, v: nat) {
    Entry(mem', r, v) == Entry(mem, r, v) || (Idx(v, 0) == slot && !Present(Entry(mem, r, v)))
  }

  ghost predicate EntriesKept(mem: Memory, mem': Memory, tab: Tables, slot: nat) {
    forall r, v: nat {:trigger EntryKept(mem, mem', slot, r, v)} ::
      IsRoot(tab, r) && v < VPN_LIMIT ==> EntryKept(mem, mem', slot, r, v)
  }

  // New pages are kernel pages of the slot.
  ghost predicate PagesGrow(pages: Pages, pages': Pages, root: nat, slot: nat) {
    && (forall f :: f in pages ==> f in pages' && pages'[f] == pages[f])
    && (forall f :: f in pages' && f !in pages ==> pages'[f].root == root && Idx(pages'[f].vpn, 0) == slot)
  }

  // The kernel maps more pages of one of its windows, and nothing else happens.
  ghost predicate KernelGrowth(mem: Memory, tab: Tables, pages: Pages, mem': Memory, tab': Tables, pages': Pages,
                               kroot: nat, slot: nat) {
    && TabGrows(tab, tab', kroot) && MemGrows(mem, mem', tab, tab', kroot) && WalksKept(mem, mem', tab)
    && PagesGrow(pages, pages', kroot, slot) && EntriesKept(mem, mem', tab, slot)
  }

  lemma {:induction false} GrowthRefl(mem: Memory, tab: Tables, pages: Pages, kroot: nat, slot: nat)
    ensures KernelGrowth(mem, tab, pages, mem, tab, pages, kroot, slot)
  {
  }

  lemma {:induction false} GrowthTrans(m0: Memory, t0: Tables, p0: Pages, m1: Memory, t1: Tables, p1: Pages, m2: Memory,
                                       t2: Tables, p2: Pages, kroot: nat, slot: nat)
    requires KernelGrowth(m0, t0, p0, m1, t1, p1, kroot, slot) && KernelGrowth(m1, t1, p1, m2, t2, p2, kroot, slot)
    ensures KernelGrowth(m0, t0, p0, m2, t2, p2, kroot, slot)
  {
    hide TableAt, Entry, Idx;
    KeptTrans(m0, t0, m1, t1, m2, kroot, slot);
    hide EntriesKept, WalksKept;
  }

  lemma {:induction false} KeptTrans(m0: Memory, t0: Tables, m1: Memory, t1: Tables, m2: Memory, kroot: nat, slot: nat)
    requires TabGrows(t0, t1, kroot)
    requires WalksKept(m0, m1, t0) && WalksKept(m1, m2, t1) && EntriesKept(m0, m1, t0, slot)
              && EntriesKept(m1, m2, t1, slot)
    ensures WalksKept(m0, m2, t0) && EntriesKept(m0, m2, t0, slot)
  {
    hide TableAt, Entry, Idx;
    assert forall r :: IsRoot(t0, r) ==> IsRoot(t1, r);
    forall r, v: nat, depth: nat | IsRoot(t0, r) && v < VPN_LIMIT ensures WalkKept(m0, m2, r, v, depth) {
      assert WalkKept(m0, m1, r, v, depth) && WalkKept(m1, m2, r, v, depth);
    }
    forall r, v: nat | IsRoot(t0, r) && v < VPN_LIMIT ensures EntryKept(m0, m2, slot, r, v) {
      assert EntryKept(m0, m1, slot, r, v) && EntryKept(m1, m2, slot, r, v);
    }
  }

  // Mapping one kernel page that was not mapped is such a growth.
  lemma {:induction false} GrowthByPage(m0: Memory, t0: Tables, p0: Pages, m1: Memory, t1: Tables, kroot: nat, v: nat,
                                        f: nat, e: Word, slot: nat)
    requires TableWf(m0, t0, kroot) && IsRoot(t0, kroot) && USER_LIMIT <= v < VPN_LIMIT && Idx(v, 0) == slot
              && !Present(Entry(m0, kroot, v)) && f !in p0
    requires TabGrows(t0, t1, kroot) && MemGrows(m0, m1, t0, t1, kroot) && WalksKept(m0, m1, t0)
    requires FlatUpdate(m0, m1, t0, kroot, kroot, v, e)
    ensures KernelGrowth(m0, t0, p0, m1, t1, p0[f := PageInfo(kroot, v)], kroot, slot)
  {
    hide TableAt, Entry, TableWf, TabGrows, MemGrows, WalksKept, Present, Up, Idx;
    forall r, u: nat | IsRoot(t0, r) && u < VPN_LIMIT ensures EntryKept(m0, m1, slot, r, u) {
      if u == v {
        KernelHalfAgrees(m0, t0, kroot, r, v);
      }
    }
  }

  lemma {:induction false} GrowthBySame(m0: Memory, t0: Tables, p0: Pages, m1: Memory, t1: Tables, kroot: nat,
                                        slot: nat)
    requires TabGrows(t0, t1, kroot) && MemGrows(m0, m1, t0, t1, kroot) && WalksKept(m0, m1, t0)
    requires SameEntries(m0, m1, t0)
    ensures KernelGrowth(m0, t0, p0, m1, t1, p0, kroot, slot)
  {
    hide TableAt, Entry, TabGrows, MemGrows, WalksKept, Present;
  }

  lemma {:induction false} GrownAllows(m0: Memory, t0: Tables, m1: Memory, t1: Tables, m2: Memory, root: nat,
                                       fl: Rights)
    requires Grown(m0, t0, m1, t1, root) && TablesAllow(m0, m1, t0, fl) && TablesAllow(m1, m2, t1, fl)
    ensures TablesAllow(m0, m2, t0, fl)
  {
    RootsKept(t0, t1, root);
    AllowTrans(m0, t0, m1, t1, m2, fl);
  }

  lemma {:induction false} LeafWalks(mem: Memory, tab: Tables, kroot: nat, g: nat, i: nat, e: Word)
    requires TableWf(mem, tab, kroot) && g in tab && tab[g].depth == 3 && g < |mem| && i < 512
    ensures WalksKept(mem, WriteWord(mem, g, i, e), tab)
    ensures TablesAllow(mem, WriteWord(mem, g, i, e), tab, ALL_RIGHTS)
  {
    hide TableWf, TableAt, UpperTo;
    forall r, u: nat, depth: nat | IsRoot(tab, r) && u < VPN_LIMIT
      ensures WalkKept(mem, WriteWord(mem, g, i, e), r, u, depth)
    {
      if depth <= 3 {
        LeafWalk(mem, tab, kroot, g, i, e, r, u, depth);
      }
    }
    forall r, u: nat | IsRoot(tab, r) && u < VPN_LIMIT
      ensures UpperAllows(mem, WriteWord(mem, g, i, e), ALL_RIGHTS, r, u)
    {
      LeafWalk(mem, tab, kroot, g, i, e, r, u, 3);
    }
  }

  // The rights above page v once its tables are complete: missing ones are made with these rights.
  function UpperMade(mem: Memory, root: nat, v: nat, fl: Rights): Rights {
    if TableAt(mem, root, v, 3) == None then Both(UpperRights(mem, root, v), fl) else UpperRights(mem, root, v)
  }

  // One step of ReachTable: nothing happens if the next table is there; a table that had to be made is
  // empty and withholds what its entry does.
  ghost predicate StepMade(mem: Memory, mem': Memory, root: nat, v: nat, depth: nat, fl: Rights) {
    && depth < 3 && TableAt(mem', root, v, depth + 1) != None
    && if TableAt(mem, root, v, depth + 1) != None then mem' == mem
       else
         && UpperTo(mem', root, v, depth + 1) == Both(UpperTo(mem, root, v, depth), fl)
         && EmptyTable(mem', TableAt(mem', root, v, depth + 1).value)
  }

  lemma EmptyStep(mem: Memory, root: nat, v: nat, depth: nat)
    requires 1 <= depth < 3 && TableAt(mem, root, v, depth) != None
              && EmptyTable(mem, TableAt(mem, root, v, depth).value)
    ensures TableAt(mem, root, v, depth + 1) == None
  {
    WalkStep(mem, root, v, depth, TableAt(mem, root, v, depth).value);
  }

  lemma {:induction false} ReachedRights(m0: Memory, m1: Memory, m2: Memory, m3: Memory, root: nat, v: nat, fl: Rights)
    requires StepMade(m0, m1, root, v, 0, fl) && StepMade(m1, m2, root, v, 1, fl) && StepMade(m2, m3, root, v, 2, fl)
    ensures UpperRights(m3, root, v) == UpperMade(m0, root, v, fl)
  {
    hide RightsOf, TableAt, EmptyTable;
    assert UpperTo(m0, root, v, 0) == ALL_RIGHTS;
    hide UpperTo;
    if TableAt(m0, root, v, 1) == None {
      UpperBelowMissing(m0, root, v, 1, 3);
      EmptyStep(m1, root, v, 1);
      EmptyStep(m2, root, v, 2);
    } else if TableAt(m0, root, v, 2) == None {
      UpperBelowMissing(m0, root, v, 2, 3);
      EmptyStep(m2, root, v, 2);
    } else if TableAt(m0, root, v, 3) == None {
      UpperBelowMissing(m0, root, v, 3, 3);
    }
  }

  // New tables and the leaf have the same rights, so those of the page are as if only the leaf were new.
  lemma RightsAfter(m0: Memory, t0: Tables, m1: Memory, kroot: nat, root: nat, v: nat, e: Word, fl: Rights)
    requires TablesAllow(m0, m1, t0, fl) && IsRoot(t0, root) && v < VPN_LIMIT
    requires FlatUpdate(m0, m1, t0, kroot, root, v, e) && RightsOf(e) == fl
    ensures PageRights(m1, root, v) == Both(UpperRights(m0, root, v), fl)
  {
    hide UpperRights, Entry, RightsOf;
    assert UpperAllows(m0, m1, fl, root, v);
  }

  // A sequence of vmm_map_page calls in one space.
  datatype MapCall = MapCall(vpn: nat, frame: nat, flags: nat)

  // The entry the flat map holds for v after the calls, `before` when none of them names v.
  function LastWritten(calls: seq<MapCall>, v: nat, before: Word): Word
    requires forall k :: 0 <= k < |calls| ==> calls[k].frame < FRAME_LIMIT && calls[k].flags < PAGE_SIZE
  {
    if calls == [] then before
    else
      var c := calls[|calls| - 1];
      if c.vpn == v then MakeEntry(c.frame, SetPresent(c.flags)) else LastWritten(calls[..|calls| - 1], v, before)
  }

  class Machine {
    var mem: Memory
    const pmm: FrameAllocator
    const kroot: nat
    ghost var tab: Tables
    ghost var pages: Pages
    ghost var stray: set<nat>
    ghost var failures: nat  // calls of get_next_table that found no frame for a new table

    // The start of paging_init: the frame just allocated becomes the kernel's empty PML4.
    constructor (frames: FrameAllocator, ram: Memory, pml4: nat)
      requires frames.Valid() && frames.Tight() && |ram| == frames.totalPages <= FRAME_LIMIT
      requires 0 < pml4 < |ram| && frames.Bits()[0] && frames.Bits()[pml4]
      ensures pmm == frames && kroot == pml4 && Valid()
      ensures tab == map[pml4 := TableInfo(pml4, 0, 0, pml4)] && pages == map[]
      // everything else that is busy was reserved before
      ensures stray == BusySet(frames.Bits()) - {pml4} && failures == 0
      ensures forall v: nat :: v < VPN_LIMIT ==> Entry(mem, kroot, v) == 0
    {
      pmm := frames;
      kroot := pml4;
      mem := ram[pml4 := ZeroFrame()];
      tab := map[pml4 := TableInfo(pml4, 0, 0, pml4)];
      pages := map[];
      stray := BusySet(frames.Bits()) - {pml4};
      failures := 0;
      new;
      hide CountFree, BitsOf, NextFit, Up, Idx;
      FirstRoot(mem, kroot);
    }

    // Everything except the agreement of `pages` with the tables.
    ghost predicate TablesValid()
      reads this, pmm, pmm.bitmap
    {
      && pmm.Valid() && pmm.Tight()
      && |mem| == pmm.totalPages <= FRAME_LIMIT
      && TableWf(mem, tab, kroot)
      && Accounted(pmm.Bits(), tab, pages, stray)
      && 0 in stray
    }

    ghost predicate Valid()
      reads this, pmm, pmm.bitmap
    {
      TablesValid() && PagesWf(mem, tab, pages, kroot)
    }

    // pmm_alloc_page: the frame is busy and not yet owned. 0 when none is free.
    method AllocFrame() returns (f: nat)
      requires TablesValid()
      modifies this`stray, pmm, pmm.bitmap
      ensures TablesValid()
      ensures old(pmm.freePages) == 0 ==> f == 0 && stray == old(stray) && pmm.freePages == 0
      ensures old(pmm.freePages) > 0 ==>
                0 < f < |mem| && f !in tab && f !in pages && f !in old(stray)
                && stray == old(stray) + {f} && pmm.freePages == old(pmm.freePages) - 1
    {
      hide TableWf, CountFree, BitsOf;
      CountZero(pmm.Bits());
      f := pmm.AllocPage();
      if f != 0 {
        stray := stray + {f};
      }
    }

    // pmm_free_page on a stray frame.
    method FreeFrame(f: nat)
      requires TablesValid() && f in stray && f != 0
      modifies this`stray, pmm, pmm.bitmap
      ensures TablesValid()
      ensures stray == old(stray) - {f} && pmm.freePages == old(pmm.freePages) + 1
    {
      hide TableWf, CountFree, BitsOf;
      var r := pmm.FreePage(f);
      stray := stray - {f};
    }

    // The fresh frame nf is zeroed and hung below entry i of table g.
    method HangTable(g: nat, i: nat, nf: nat, flags: nat)
      requires TablesValid() && g in tab && tab[g].depth < 3 && i < 512 && flags < PAGE_SIZE && flags % 2 == 1
      requires !Present(Read(mem, g, i)) && OwnsIndex(tab[g], kroot, i)
      requires g == kroot && i >= 256 ==> SlotReady(mem, tab, kroot, i)
      requires nf in stray && nf != 0
      modifies this`mem, this`tab, this`stray
      ensures TablesValid() && stray == old(stray) - {nf}
      ensures Grown(old(mem), old(tab), mem, tab, old(tab)[g].root)
      ensures Read(mem, g, i) == MakeEntry(nf, flags)
      ensures TablesAllow(old(mem), mem, old(tab), RightsOf(flags))
      ensures EmptyTable(mem, nf)
    {
      hide TableAt, Entry, Up, Idx, CountFree, BitsOf, TableWf, Grown, FrameOf, Present, TablesAllow, RightsOf;
      Linked(mem, tab, kroot, g);
      EntryRoundTrip(nf, flags);
      EntryRights(nf, flags);
      InsertGrows(mem, tab, kroot, g, i, nf, MakeEntry(nf, flags));
      InsertAllows(mem, tab, kroot, g, i, nf, MakeEntry(nf, flags));
      mem := mem[nf := ZeroFrame()];
      mem := WriteWord(mem, g, i, MakeEntry(nf, flags));
      tab := InsertedTab(tab, g, i, nf);
      stray := stray - {nf};
    }

    // get_next_table with allocate = false; 0 stands for NULL.
    method LookupTable(g: nat, i: nat) returns (next: nat)
      requires TablesValid() && g in tab && tab[g].depth < 3 && i < 512
      ensures next == if Present(Read(mem, g, i)) then FrameOf(Read(mem, g, i)) else 0
      ensures next != 0 <==> Present(Read(mem, g, i))
    {
      hide TableAt, Entry, Up, Idx, CountFree, BitsOf, TableWf, FrameOf;
      Linked(mem, tab, kroot, g);
      var entry := mem[g][i];
      if !Present(entry) {
        return 0;
      }
      next := FrameOf(entry);
      Linked(mem, tab, kroot, kroot);
      if OwnsIndex(tab[g], kroot, i) {
        Down(mem, tab, kroot, g, i);
      } else {
        Shared(mem, tab, kroot, g, i);
        Down(mem, tab, kroot, kroot, i);
      }
    }

    // get_next_table with allocate = true; 0 stands for NULL.
    method GetNextTable(g: nat, i: nat, flags: nat) returns (next: nat)
      requires TablesValid() && g in tab && tab[g].depth < 3 && i < 512 && flags < PAGE_SIZE
      requires !Present(Read(mem, g, i)) ==>
                 flags % 2 == 1 && OwnsIndex(tab[g], kroot, i)
                 && (g == kroot && i >= 256 ==> SlotReady(mem, tab, kroot, i))
      modifies this`mem, this`tab, this`stray, this`failures, pmm, pmm.bitmap
      ensures TablesValid() && stray == old(stray)
      ensures next == if Present(Read(mem, g, i)) then FrameOf(Read(mem, g, i)) else 0
      ensures next != 0 <==> Present(Read(mem, g, i))
      ensures failures == old(failures) + if next == 0 then 1 else 0
      ensures old(Present(Read(mem, g, i))) || old(pmm.freePages) == 0 ==>
                mem == old(mem) && tab == old(tab) && pmm.freePages == old(pmm.freePages)
      ensures old(!Present(Read(mem, g, i))) && old(pmm.freePages) > 0 ==>
                next != 0 && pmm.freePages == old(pmm.freePages) - 1 && EmptyTable(mem, next)
      // a new entry has the caller's flags
      ensures old(!Present(Read(mem, g, i))) && next != 0 ==> Read(mem, g, i) == MakeEntry(next, flags)
      ensures Grown(old(mem), old(tab), mem, tab, old(tab)[g].root)
      ensures TablesAllow(old(mem), mem, old(tab), RightsOf(flags))
    {
      hide TableAt, Entry, Up, Idx, CountFree, BitsOf, TableWf, Grown, TablesAllow, RightsOf;
      GrownRefl(mem, tab, tab[g].root);
      AllowRefl(mem, tab, RightsOf(flags));
      next := LookupTable(g, i);
      if next != 0 {
        return;
      }
      next := AllocFrame();
      if next == 0 {
        failures := failures + 1;
        return;
      }
      EntryRoundTrip(next, flags);
      HangTable(g, i, next, flags);
    }

    // vmm_get_pte: the PT that holds the entry of page v, 0 for NULL.
    method GetPte(root: nat, v: nat) returns (pt: nat)
      requires TablesValid() && IsRoot(tab, root) && v < VPN_LIMIT
      ensures pt == 0 <==> TableAt(mem, root, v, 3) == None
      ensures pt != 0 ==>
                TableAt(mem, root, v, 3) == Some(pt) && pt < |mem|
                && mem[pt][Idx(v, 3)] == Entry(mem, root, v)
      ensures pt == 0 ==> Entry(mem, root, v) == 0
    {
      hide Up, Idx, CountFree, BitsOf, TableWf, FrameOf, Present;
      pt := LookupTable(root, Idx(v, 0));
      if pt == 0 {
        if TableAt(mem, root, v, 3) != None {
          SlotFilled(mem, root, v, 3);
        }
        return;
      }
      WalkMeetsTables(mem, tab, kroot, root, v, 1);
      pt := LookupTable(pt, Idx(v, 1));
      if pt == 0 {
        return;
      }
      WalkMeetsTables(mem, tab, kroot, root, v, 2);
      pt := LookupTable(pt, Idx(v, 2));
      if pt != 0 {
        WalkMeetsTables(mem, tab, kroot, root, v, 3);
        Linked(mem, tab, kroot, pt);
      }
    }

    // get_next_table as vmm_map_page calls it: one step on the way to page v.
    method Descend(root: nat, v: nat, depth: nat, g: nat, flags: nat) returns (next: nat)
      requires TablesValid() && MayMap(mem, tab, kroot, root, v)
      requires depth < 3 && TableAt(mem, root, v, depth) == Some(g)
      requires flags < PAGE_SIZE && flags % 2 == 1
      modifies this`mem, this`tab, this`stray, this`failures, pmm, pmm.bitmap
      ensures TablesValid() && stray == old(stray) && Grown(old(mem), old(tab), mem, tab, root)
      ensures TablesAllow(old(mem), mem, old(tab), RightsOf(flags))
      ensures failures == old(failures) + if next == 0 then 1 else 0
      ensures next == 0 ==> old(pmm.freePages) == pmm.freePages == 0 && MissingBelow(old(mem), root, v, depth) > 0
      ensures next != 0 ==> TableAt(mem, root, v, depth + 1) == Some(next) && MayMap(mem, tab, kroot, root, v)
      // a table that had to be made withholds what the flags do
      ensures next != 0 ==> StepMade(old(mem), mem, root, v, depth, RightsOf(flags))
      ensures next != 0 ==> old(pmm.freePages) - pmm.freePages ==
                              MissingBelow(old(mem), root, v, depth) - MissingBelow(mem, root, v, depth + 1)
    {
      hide Up, Idx, CountFree, BitsOf, TableWf, Entry, TableAt, MissingBelow, FrameOf, Present, TablesAllow, RightsOf,
        UpperTo;
      MayDescend(mem, tab, kroot, root, v, depth, g);
      WalkStep(mem, root, v, depth, g);
      UpperStep(mem, root, v, depth, g);
      MissingStep(mem, root, v, depth);
      next := GetNextTable(g, Idx(v, depth), flags);
      assert WalkKept(old(mem), mem, root, v, depth) && WalkKept(old(mem), mem, root, v, depth + 1);
      WalkStep(mem, root, v, depth, g);
      UpperStep(mem, root, v, depth, g);
      if next != 0 && old(!Present(Read(mem, g, Idx(v, depth)))) {
        EntryRights(next, flags);
      }
      MissingStep(mem, root, v, depth);
      if next != 0 && v >= USER_LIMIT {
        SlotFilled(mem, root, v, depth + 1);
      }
    }

    // *pte = e, where pte points into the PT that carries page v of root.
    method WritePte(root: nat, v: nat, pt: nat, e: Word)
      requires TablesValid() && IsRoot(tab, root) && v < VPN_LIMIT
      requires TableAt(mem, root, v, 3) == Some(pt)
      modifies this`mem
      ensures TablesValid()
      ensures FlatUpdate(old(mem), mem, tab, kroot, root, v, e)
      ensures WalksKept(old(mem), mem, tab) && MemGrows(old(mem), mem, tab, tab, Home(kroot, root, v))
      ensures TableAt(mem, root, v, 3) == Some(pt)
      ensures TablesAllow(old(mem), mem, tab, ALL_RIGHTS)
    {
      hide Up, Idx, CountFree, BitsOf, TableWf, Entry, TableAt, UpperTo;
      LeafWrite(mem, tab, kroot, pt, e, root, v);
      LeafWalks(mem, tab, kroot, pt, Idx(v, 3), e);
      assert WalkKept(mem, WriteWord(mem, pt, Idx(v, 3), e), root, v, 3);
      mem := WriteWord(mem, pt, Idx(v, 3), e);
    }

    // The three calls of get_next_table in vmm_map_page; 0 stands for its early return.
    method ReachTable(root: nat, v: nat, flags: nat) returns (pt: nat)
      requires TablesValid() && MayMap(mem, tab, kroot, root, v)
      requires flags < PAGE_SIZE && flags % 2 == 1
      modifies this`mem, this`tab, this`stray, this`failures, pmm, pmm.bitmap
      ensures TablesValid() && stray == old(stray) && Grown(old(mem), old(tab), mem, tab, root)
      ensures TablesAllow(old(mem), mem, old(tab), RightsOf(flags))
      ensures failures == old(failures) + if pt == 0 then 1 else 0
      ensures pt == 0 ==> pmm.freePages == 0 && old(pmm.freePages) < Missing(old(mem), root, v)
      ensures pt != 0 ==> TableAt(mem, root, v, 3) == Some(pt)
                          && old(pmm.freePages) - pmm.freePages == Missing(old(mem), root, v)
      ensures pt != 0 ==> UpperRights(mem, root, v) == UpperMade(old(mem), root, v, RightsOf(flags))
    {
      hide Up, Idx, CountFree, BitsOf, TableWf, Entry, Grown, TablesValid, MayMap, Missing, MissingBelow, TableAt,
        Present, FrameOf, TablesAllow, RightsOf, UpperTo;
      MissingEnds(mem, root, v);
      ghost var m0, t0, fl := mem, tab, RightsOf(flags);
      pt := Descend(root, v, 0, root, flags);
      ghost var m1, t1 := mem, tab;
      if pt == 0 {
        return;
      }
      pt := Descend(root, v, 1, pt, flags);
      ghost var m2, t2 := mem, tab;
      GrownTrans(m0, t0, m1, t1, m2, t2, root);
      GrownAllows(m0, t0, m1, t1, m2, root, fl);
      if pt == 0 {
        return;
      }
      pt := Descend(root, v, 2, pt, flags);
      GrownTrans(m0, t0, m2, t2, mem, tab, root);
      GrownAllows(m0, t0, m2, t2, mem, root, fl);
      if pt != 0 {
        ReachedRights(m0, m1, m2, mem, root, v, fl);
      }
      MissingEnds(mem, root, v);
    }

    // vmm_map_page. Nothing is reported to the caller; `mapped` is a ghost.
    method MapPage(root: nat, v: nat, f: nat, flags: nat) returns (ghost mapped: bool)
      requires TablesValid() && MayMap(mem, tab, kroot, root, v)
      requires f < FRAME_LIMIT && flags < PAGE_SIZE && flags % 2 == 1
      modifies this`mem, this`tab, this`stray, this`failures, pmm, pmm.bitmap
      ensures TablesValid() && stray == old(stray)
      ensures mapped <==> old(pmm.freePages) >= Missing(old(mem), root, v)
      ensures failures == old(failures) + if mapped then 0 else 1
      ensures pmm.freePages == if mapped then old(pmm.freePages) - Missing(old(mem), root, v) else 0
      ensures TabGrows(old(tab), tab, root) && MemGrows(old(mem), mem, old(tab), tab, root)
      ensures WalksKept(old(mem), mem, old(tab))
      ensures mapped ==> TableAt(mem, root, v, 3) != None
      ensures mapped ==> FlatUpdate(old(mem), mem, old(tab), kroot, root, v, MakeEntry(f, SetPresent(flags)))
      ensures !mapped ==> SameEntries(old(mem), mem, old(tab))
      // the page's rights: those of `flags`, less what tables that were there before withhold
      ensures mapped ==> PageRights(mem, root, v) == Both(UpperRights(old(mem), root, v), RightsOf(flags))
      ensures mapped ==> UpperRights(mem, root, v) == UpperMade(old(mem), root, v, RightsOf(flags))
      ensures TablesAllow(old(mem), mem, old(tab), RightsOf(flags))
      // every other mapped page keeps its rights
      ensures OtherRightsKept(old(mem), mem, old(tab), kroot, root, v)
    {
      hide Up, Idx, CountFree, BitsOf, TableWf, Entry, TableAt, Missing, FlatUpdate, SameEntries, WalksKept, MemGrows,
        TablesAllow, RightsOf, UpperRights, OtherRightsKept;
      ghost var m0, t0, fl := mem, tab, RightsOf(flags);
      var pt := ReachTable(root, v, flags);
      mapped := pt != 0;
      if pt == 0 {
        MappedKeepsRights(m0, mem, t0, kroot, root, v, 0);
        return;
      }
      ghost var m1, t1 := mem, tab;
      var e := MakeEntry(f, SetPresent(flags));
      WritePte(root, v, pt, e);
      GrowThenWrite(m0, t0, m1, t1, mem, kroot, root, v, e);
      MappedKeepsRights(m0, mem, t0, kroot, root, v, e);
      AllowsAll(m1, mem, t1, fl);
      GrownAllows(m0, t0, m1, t1, mem, root, fl);
      EntryRights(f, SetPresent(flags));
      EntryRights(f, flags);
      RightsAfter(m0, t0, mem, kroot, root, v, e, fl);
    }

    // Tables made for a read-only page withhold writes from the pages mapped next to it later: the entry
    // of the second page allows writes, and the page cannot be written.
    method ReadOnlyFirst(root: nat, v: nat, f: nat, g: nat)
      requires TablesValid() && IsRoot(tab, root) && v + 1 < USER_LIMIT && Up(v + 1, 3) == Up(v, 3)
      requires TableAt(mem, root, v, 3) == None && pmm.freePages >= 6 && f < FRAME_LIMIT && g < FRAME_LIMIT
      modifies this`mem, this`tab, this`stray, this`failures, pmm, pmm.bitmap
      ensures TablesValid() && stray == old(stray)
      ensures Present(Entry(mem, root, v + 1)) && RightsOf(Entry(mem, root, v + 1)).write
      ensures !PageRights(mem, root, v + 1).write
    {
      hide Up, Idx, CountFree, BitsOf, TableWf, Entry, TableAt, Missing, UpperTo, WalksKept, MemGrows,
        OtherRightsKept, TablesAllow;
      ghost var m0, t0 := mem, tab;
      KernelIsRoot();
      AtMostThree(mem, root, v);
      var _ := MapPage(root, v, f, PTE_PRESENT + PTE_USER);
      MayMapKept(m0, t0, mem, tab, kroot, root, root, v + 1);
      AtMostThree(mem, root, v + 1);
      UpperToSameTables(mem, root, v, v + 1, 3);
      ghost var m1 := mem;
      var _ := MapPage(root, v + 1, g, PTE_PRESENT + PTE_USER + PTE_RW);
      EntryRights(g, PTE_PRESENT + PTE_USER + PTE_RW);
      EntryRoundTrip(g, PTE_PRESENT + PTE_USER + PTE_RW);
    }

    // Any run of vmm_map_page calls, remappings included: the four-level walk reads as the flat
    // map from page numbers to the last entry written.
    method RunMapCalls(root: nat, calls: seq<MapCall>) returns (ghost allMapped: bool)
      requires TablesValid() && IsRoot(tab, root)
      requires forall k :: 0 <= k < |calls| ==>
                 calls[k].frame < FRAME_LIMIT && calls[k].flags < PAGE_SIZE && calls[k].flags % 2 == 1
                 && MayMap(mem, tab, kroot, root, calls[k].vpn)
      modifies this`mem, this`tab, this`stray, this`failures, pmm, pmm.bitmap
      ensures TablesValid() && IsRoot(tab, root)
      ensures old(pmm.freePages) >= 3 * |calls| ==> allMapped
      ensures old(failures) <= failures && (allMapped <==> failures == old(failures))
      ensures allMapped ==> forall v: nat :: v < VPN_LIMIT ==>
                Entry(mem, root, v) == LastWritten(calls, v, old(Entry(mem, root, v)))
    {
      hide Up, Idx, CountFree, BitsOf, TableWf, Entry, TableAt, Missing, TablesValid;
      allMapped := true;
      ghost var m0 := mem;
      for i := 0 to |calls|
        invariant TablesValid() && IsRoot(tab, root)
        invariant forall k :: 0 <= k < |calls| ==> MayMap(mem, tab, kroot, root, calls[k].vpn)
        invariant old(failures) <= failures && (allMapped <==> failures == old(failures))
        invariant old(pmm.freePages) >= 3 * |calls| ==> allMapped && pmm.freePages >= 3 * (|calls| - i)
        invariant allMapped ==> forall v: nat :: v < VPN_LIMIT ==>
                    Entry(mem, root, v) == LastWritten(calls[..i], v, Entry(m0, root, v))
      {
        ghost var m1, t1 := mem, tab;
        AtMostThree(mem, root, calls[i].vpn);
        KernelIsRoot();
        var mapped := MapPage(root, calls[i].vpn, calls[i].frame, calls[i].flags);
        forall k | 0 <= k < |calls| ensures MayMap(mem, tab, kroot, root, calls[k].vpn) {
          MayMapKept(m1, t1, mem, tab, kroot, root, root, calls[k].vpn);
        }
        allMapped := allMapped && mapped;
        assert calls[..i + 1][..i] == calls[..i];
      }
      assert calls[..|calls|] == calls;
    }

    lemma KernelIsRoot()
      requires TablesValid()
      ensures IsRoot(tab, kroot) && tab[kroot].root == kroot
    {
      Linked(mem, tab, kroot, kroot);
    }

    // What a valid machine says about its memory.
    lemma Parts()
      requires Valid()
      ensures TablesValid() && TableWf(mem, tab, kroot) && PagesWf(mem, tab, pages, kroot)
      ensures IsRoot(tab, kroot) && tab[kroot].root == kroot && |mem| <= FRAME_LIMIT
      ensures forall f :: f in pages ==> f !in tab
    {
      hide TableWf, PagesWf, CountFree, BitsOf;
      KernelIsRoot();
    }

    // pmm_alloc_page followed by vmm_map_page: the way mm_map_range, kheap_expand and
    // kstack_init give a space a new page. Returns the frame, 0 when none was free.
    method MapNewPage(root: nat, v: nat, flags: nat) returns (f: nat, ghost mapped: bool)
      requires Valid() && MayMap(mem, tab, kroot, root, v) && OwnsPage(kroot, root, v)
      requires !Present(Entry(mem, root, v)) && flags < PAGE_SIZE && flags % 2 == 1
      modifies this`mem, this`tab, this`stray, this`failures, this`pages, pmm, pmm.bitmap
      ensures Valid()
      ensures f == 0 <==> old(pmm.freePages) == 0
      ensures f == 0 ==>
                mem == old(mem) && tab == old(tab) && pages == old(pages) && stray == old(stray) && !mapped
                && pmm.freePages == 0
      ensures mapped <==> old(pmm.freePages) >= 1 + Missing(old(mem), root, v)
      // the page's frame is lost exactly when a table was missing
      ensures failures == old(failures) + if f != 0 && !mapped then 1 else 0
      ensures pmm.freePages == if mapped then old(pmm.freePages) - 1 - Missing(old(mem), root, v) else 0
      ensures f != 0 ==> f < |mem| && f !in old(pages) && f !in old(tab) && f !in old(stray)
      ensures TabGrows(old(tab), tab, root) && MemGrows(old(mem), mem, old(tab), tab, root)
      ensures WalksKept(old(mem), mem, old(tab))
      ensures mapped ==> TableAt(mem, root, v, 3) != None
      ensures mapped ==> pages == old(pages)[f := PageInfo(root, v)] && stray == old(stray)
                         && FlatUpdate(old(mem), mem, old(tab), kroot, root, v, MakeEntry(f, flags))
      ensures !mapped ==> pages == old(pages) && SameEntries(old(mem), mem, old(tab))
                          && stray == if f == 0 then old(stray) else old(stray) + {f}
      ensures mapped ==> PageRights(mem, root, v) == Both(UpperRights(old(mem), root, v), RightsOf(flags))
      ensures TablesAllow(old(mem), mem, old(tab), RightsOf(flags))
    {
      hide Up, Idx, CountFree, BitsOf, TableWf, Entry, TableAt, Missing, FlatUpdate, SameEntries, WalksKept, MemGrows,
        TabGrows, PagesWf, OwnsPage, Present, FrameOf, TablesAllow, RightsOf, UpperRights, OtherRightsKept;
      ghost var m0, t0 := mem, tab;
      f := AllocFrame();
      mapped := false;
      if f == 0 {
        GrownRefl(mem, tab, root);
        AllowRefl(mem, tab, RightsOf(flags));
        return;
      }
      mapped := MapPage(root, v, f, flags);
      if mapped {
        EntryRoundTrip(f, flags);
        PagesAdd(m0, t0, mem, tab, pages, kroot, root, v, f, MakeEntry(f, flags));
        pages := pages[f := PageInfo(root, v)];
        stray := stray - {f};
      } else {
        PagesKept(m0, t0, mem, tab, pages, kroot, root);
      }
    }

    // The body of the rollback loop of mm_map_range and of the loop of kstack_free: give the
    // page's frame back and clear its entry.
    method UnmapPage(root: nat, v: nat)
      requires Valid() && IsRoot(tab, root) && v < VPN_LIMIT && OwnsPage(kroot, root, v)
      modifies this`mem, this`stray, this`pages, pmm, pmm.bitmap
      ensures Valid() && stray == old(stray)
      ensures !old(Present(Entry(mem, root, v))) ==>
                mem == old(mem) && pages == old(pages)
                && pmm.freePages == old(pmm.freePages)
      ensures old(Present(Entry(mem, root, v))) ==>
                var f := FrameOf(old(Entry(mem, root, v)));
                f in old(pages) && old(pages)[f] == PageInfo(root, v)
                && pages == old(pages) - {f} && pmm.freePages == old(pmm.freePages) + 1
                && FlatUpdate(old(mem), mem, tab, kroot, root, v, 0)
      ensures WalksKept(old(mem), mem, tab) && MemGrows(old(mem), mem, tab, tab, Home(kroot, root, v))
      ensures TablesAllow(old(mem), mem, tab, ALL_RIGHTS)
    {
      hide Up, Idx, CountFree, BitsOf, TableWf, FlatUpdate, PagesWf, OwnsPage, Entry, TableAt, UpperRights;
      ghost var m0 := mem;
      var pt := GetPte(root, v);
      if pt != 0 && Present(mem[pt][Idx(v, 3)]) {
        var f := FrameOf(mem[pt][Idx(v, 3)]);
        ListedPage(mem, tab, pages, kroot, root, v);
        pages := pages - {f};
        stray := stray + {f};
        FreeFrame(f);
        WritePte(root, v, pt, 0);
        PagesDrop(m0, mem, tab, old(pages), kroot, root, v);
      }
    }
  }
}
