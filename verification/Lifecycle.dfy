/** A whole life of an address space: mm_alloc, mm_map_range calls, mm_free. */
module Lifecycle {
  import opened Common
  import opened Pte
  import Pmm
  import opened PageTable
  import opened Machine
  import opened MapPages
  import opened Confine
  import opened Teardown
  import opened Heap
  import opened HeapSpec
  import HeapRuns
  import opened HeapUse
  import IntrusiveList
  import opened Vmm

  datatype Area = Area(va: nat, size: nat, flags: nat)

  predicate AreaFits(a: Area) {
    a.size > 0 && a.va + a.size <= USER_LIMIT * PAGE_SIZE
  }

  predicate PageDisjoint(a: Area, b: Area) {
    FirstPage(a.va) + PageSpan(a.va, a.size) <= FirstPage(b.va)
        || FirstPage(b.va) + PageSpan(b.va, b.size) <= FirstPage(a.va)
  }

  ghost predicate AreasOk(areas: seq<Area>) {
    && (forall i :: 0 <= i < |areas| ==> AreaFits(areas[i]))
    && (forall i, j :: 0 <= i < j < |areas| ==> PageDisjoint(areas[i], areas[j]))
  }

  ghost predicate StillFree(mem: Memory, root: nat, areas: seq<Area>, i: nat) {
    forall j :: i <= j < |areas| ==> RangeUnmapped(mem, root, FirstPage(areas[j].va),
                                                   PageSpan(areas[j].va, areas[j].size))
  }

  lemma {:induction false} FreshIsFree(mem: Memory, tab: Tables, kroot: nat, root: nat, areas: seq<Area>)
    requires SpaceOk(mem, tab, kroot, root, []) && AreasOk(areas)
    ensures StillFree(mem, root, areas, 0)
  {
    hide Entry, PageSpan, FirstPage;
    forall j | 0 <= j < |areas| ensures RangeUnmapped(mem, root, FirstPage(areas[j].va),
                                                      PageSpan(areas[j].va, areas[j].size)) {
      SpanFits(areas[j].va, areas[j].size);
      forall u: nat | FirstPage(areas[j].va) <= u < FirstPage(areas[j].va) + PageSpan(areas[j].va, areas[j].size)
        ensures Entry(mem, root, u) == 0
      {
        assert MappedIffListed(mem, root, [], u);
      }
    }
  }

  lemma OthersStayFree(m1: Memory, m2: Memory, root: nat, areas: seq<Area>, i: nat)
    requires AreasOk(areas) && i < |areas| && StillFree(m1, root, areas, i)
    requires KeptOutside(m1, m2, root, FirstPage(areas[i].va), PageSpan(areas[i].va, areas[i].size))
    ensures StillFree(m2, root, areas, i + 1)
  {
    hide Entry, PageSpan, FirstPage;
    forall j | i + 1 <= j < |areas| ensures RangeUnmapped(m2, root, FirstPage(areas[j].va),
                                                          PageSpan(areas[j].va, areas[j].size)) {
      SpanFits(areas[j].va, areas[j].size);
      assert RangeUnmapped(m1, root, FirstPage(areas[j].va), PageSpan(areas[j].va, areas[j].size));
      assert PageDisjoint(areas[i], areas[j]);
      forall u: nat | FirstPage(areas[j].va) <= u < FirstPage(areas[j].va) + PageSpan(areas[j].va, areas[j].size)
        ensures Entry(m2, root, u) == 0
      {
        assert Entry(m1, root, u) == 0;
      }
    }
  }

  // Tables and pages are as before except for what the kernel's own part grew by.
  ghost predicate OnlyKernelGrew(t0: Tables, p0: Pages, t1: Tables, p1: Pages, kroot: nat) {
    && (forall g :: g in t0 ==> g in t1 && t1[g] == t0[g])
    && (forall g :: g in t1 && g !in t0 ==> t1[g].root == kroot)
    && (forall f :: f in p0 ==> f in p1 && p1[f] == p0[f])
    && (forall f :: f in p1 && f !in p0 ==> p1[f].root == kroot)
  }

  // The bitmap is as before except for the kernel's new tables and pages.
  ghost predicate BitmapRestored(bits0: seq<bool>, bits1: seq<bool>, t0: Tables, p0: Pages, t1: Tables, p1: Pages) {
    && |bits1| == |bits0|
    && forall f: nat :: f < |bits0| ==> (bits1[f] <==> bits0[f] || (f in t1 && f !in t0) || (f in p1 && f !in p0))
  }

  lemma {:induction false} SpaceRemoved(m0: Memory, t0: Tables, p0: Pages, t1: Tables, p1: Pages, kroot: nat, r: nat)
    requires TableWf(m0, t0, kroot) && PagesWf(m0, t0, p0, kroot) && OwnersConfined(t0, p0, t1, p1, kroot, r)
    requires r !in t0 && r != kroot
    ensures OnlyKernelGrew(t0, p0, WithoutSpace(t1, r), PagesWithout(p1, r), kroot)
  {
    hide Entry, TableWf;
    var t2, p2 := WithoutSpace(t1, r), PagesWithout(p1, r);
    forall g | g in t0 ensures g in t2 && t2[g] == t0[g] {
      Linked(m0, t0, kroot, g);
    }
    forall f | f in p0 ensures f in p2 && p2[f] == p0[f] {
      HeldPage(m0, t0, p0, kroot, f);
    }
  }

  lemma {:induction false} BitsFromOwners(bits0: seq<bool>, t0: Tables, p0: Pages, s: set<nat>, bits1: seq<bool>,
                                          t1: Tables, p1: Pages, kroot: nat)
    requires Accounted(bits0, t0, p0, s) && Accounted(bits1, t1, p1, s) && |bits1| == |bits0|
    requires OnlyKernelGrew(t0, p0, t1, p1, kroot)
    ensures BitmapRestored(bits0, bits1, t0, p0, t1, p1)
  {
  }

  // Frames that mapping the first i areas may consume.
  function AreasNeed(areas: seq<Area>, i: nat): nat
    requires i <= |areas|
  {
    if i == 0 then 0 else AreasNeed(areas, i - 1) + NeedBound(PageSpan(areas[i - 1].va, areas[i - 1].size))
  }

  lemma {:induction false} AreasNeedGrows(areas: seq<Area>, i: nat, j: nat)
    requires i <= j <= |areas|
    ensures AreasNeed(areas, i) <= AreasNeed(areas, j)
    decreases j
  {
    if i < j { AreasNeedGrows(areas, i, j - 1); }
  }

  // Heap room for the mm_struct and the areas, and a frame for the PML4 and for each page and
  // table that the areas may need.
  ghost predicate Enough(bs: seq<Block>, free: nat, areas: seq<Area>) {
    HasRoom(bs, SIZEOF_MM + HEADER_SIZE + |areas| * VMA_ROOM) && free >= 1 + AreasNeed(areas, |areas|)
  }

  lemma RoomForAll(bs: seq<Block>, free: nat, areas: seq<Area>)
    requires Enough(bs, free, areas)
    ensures Fits(bs, SIZEOF_MM) && free >= 1
    ensures RoomFor(AllocAt(bs, FirstFit(bs, SIZEOF_MM, 0), SIZEOF_MM), |areas|)
  {
    RoomLeft(bs, SIZEOF_MM, SIZEOF_MM + HEADER_SIZE + |areas| * VMA_ROOM);
  }

  lemma {:induction false} SpaceGrewTrans(t0: Tables, p0: Pages, t1: Tables, p1: Pages, t2: Tables, p2: Pages, r: nat)
    requires OnlySpaceGrew(t0, p0, t1, p1, r) && OnlySpaceGrew(t1, p1, t2, p2, r)
    ensures OnlySpaceGrew(t0, p0, t2, p2, r)
  {
  }

  lemma {:induction false} NothingLeft(m0: Memory, t0: Tables, p0: Pages, t1: Tables, p1: Pages, kroot: nat, r: nat)
    requires TableWf(m0, t0, kroot) && PagesWf(m0, t0, p0, kroot) && OnlySpaceGrew(t0, p0, t1, p1, r) && r !in t0
    ensures WithoutSpace(t1, r) == t0 && PagesWithout(p1, r) == p0
  {
    hide Entry, TableWf;
    forall g | g in t0 ensures t0[g].root != r {
      Linked(m0, t0, kroot, g);
    }
    forall f | f in p0 ensures p0[f].root != r {
      HeldPage(m0, t0, p0, kroot, f);
    }
  }

  lemma {:induction false} SameBits(bits0: seq<bool>, bits1: seq<bool>, t: Tables, p: Pages, s: set<nat>)
    requires Accounted(bits0, t, p, s) && Accounted(bits1, t, p, s) && |bits1| == |bits0|
    ensures bits1 == bits0
  {
  }

  // The heap side of a life: nobody's block is touched, and the space's pointers are new ones.
  ghost predicate OwnBlocks(bs0: seq<Block>, mid: seq<Block>, ps: seq<nat>, bs1: seq<Block>, own: seq<nat>) {
    OwnFrees(bs0, mid, ps, bs1, {}) && forall p :: p in own ==> !InUse(bs0, p, 0)
  }

  lemma {:induction false} FirstBlock(bs0: seq<Block>, mid: seq<Block>, bs1: seq<Block>, p: nat, size: nat)
    requires OwnFrees(bs0, mid, [], bs1, {}) && NewlyUsed(bs0, bs1, p, size)
    ensures OwnBlocks(bs0, bs1, [], bs1, [] + [p])
  {
    hide InUse;
  }

  lemma {:induction false} NextVma(bs0: seq<Block>, bs1: seq<Block>, mid: seq<Block>, ps: seq<nat>, bs2: seq<Block>,
                                   before: seq<nat>, after: seq<nat>, block: nat)
    requires OwnBlocks(bs0, bs1, [], bs1, before + [block]) && OwnFrees(bs1, mid, ps, bs2, {})
    requires VmaLinked(before, after, bs1, mid, ps)
    ensures OwnBlocks(bs0, mid, ps, bs2, after + [block])
  {
    hide InUse, HeapRuns.FreeEach;
    UsedTrans(bs0, bs1, mid);
    assert HeapRuns.FreeEach(bs1, []) == bs1 by {
      FreeEachOne(bs1, 0);
    }
    assert block in before + [block] && forall p :: p in before ==> p in before + [block];
    forall p | p in after + [block] || p in ps ensures !InUse(bs0, p, 0) {
      if p !in before && p != block {
        assert !InUse(bs1, p, 0);
      }
    }
  }

  lemma SameHeap(bs0: seq<Block>, mid: seq<Block>, bs1: seq<Block>, own: seq<nat>)
    requires OwnBlocks(bs0, mid, [], bs1, own)
    ensures mid == bs1
  {
  }

  lemma {:induction false} BlocksBack(bs0: seq<Block>, mid: seq<Block>, ps: seq<nat>, bs1: seq<Block>, bs2: seq<Block>,
                                      own: seq<nat>)
    requires OwnBlocks(bs0, mid, ps, bs1, own) && bs2 == HeapRuns.FreeEach(bs1, own)
    ensures OwnFrees(bs0, mid, ps + own, bs2, {})
  {
    hide InUse, HeapRuns.FreeEach;
    FreeEachAppend(mid, ps, own);
  }

  // mm_alloc and page-disjoint mm_map_range calls, up to the first that fails.
  method Live(k: KernelHeap, areas: seq<Area>) returns (r: Status, mm: Mm?, ghost mid: seq<Block>, ghost ps: seq<nat>)
    requires k.Valid() && AreasOk(areas)
    modifies k`size, k`isFree, k`order, k`top, k.nodes, k.m`mem, k.m`tab, k.m`stray, k.m`failures, k.m`pages, k.m.pmm,
        k.m.pmm.bitmap
    ensures r != Halted ==> k.Valid() && old(k.m.stray) <= k.m.stray
    ensures r == Halted || mm == null ==> k.m.pmm.freePages == 0
    ensures r != Halted && mm != null ==>
              && IsRoot(k.m.tab, mm.root) && mm.root != k.m.kroot && mm.root !in old(k.m.tab)
              && Confined(old(k.m.mem), old(k.m.tab), old(k.m.pages), k.m.mem, k.m.tab, k.m.pages, k.m.kroot, mm.root)
    ensures r == Done ==> mm != null && |mm.vmas| == |areas| && ps == []
    ensures Losses(old(k.m.stray), old(k.m.failures), k.m.stray, k.m.failures)
    ensures r != Halted ==> OwnBlocks(old(k.Blocks()), mid, ps, k.Blocks(), if mm == null then [] else mm.Pointers())
    ensures Enough(old(k.Blocks()), old(k.m.pmm.freePages), areas) ==>
              && r == Done && k.m.stray == old(k.m.stray)
              && OnlySpaceGrew(old(k.m.tab), old(k.m.pages), k.m.tab, k.m.pages, mm.root)
  {
    hide TableWf, PagesWf, Entry, HeapSpec.Tiles, View, IntrusiveList.IsRing, Up, Idx, Pmm.CountFree, Pmm.BitsOf,
      WindowMapped, SlotReady, Confined, SpaceOk, KeptOutside, NewPagesIn, MappedOrZero, RangeMapped, RangeUnmapped,
      PageSpan, FirstPage, PteFlags, StillFree, NeedBound, KernelGrowth, Accounted, OnlySpaceGrew, RoomFor, Fits,
      AllocAt, Enough, Covered, TailFree, Losses, OwnBlocks, OwnFrees, VmaLinked, InUse, Tiled, UsedKept, FittingPtr,
      AreasOk, HeapRuns.FreeEach, KernelHeap.Valid, Machine.Valid;
    k.Parts();
    ghost var m0, t0, p0, kroot := k.m.mem, k.m.tab, k.m.pages, k.m.kroot;
    ghost var s0, n0, bs0 := k.m.stray, k.m.failures, k.Blocks();
    ghost var enough, free := Enough(k.Blocks(), k.m.pmm.freePages, areas), k.m.pmm.freePages;
    if enough {
      RoomForAll(k.Blocks(), free, areas);
      EnoughFrames(k.Blocks(), free, areas);
    }
    var a;
    a, mid, ps := MmAlloc(k);
    if !a.Space? {
      if a.NoSpace? {
        k.Parts();
        NoPointers(bs0, mid, ps, k.Blocks());
      }
      return if a.NoSpace? then Failed else Halted, null, mid, ps;
    }
    mm := a.mm;
    k.Parts();
    FirstBlock(bs0, mid, k.Blocks(), mm.block, SIZEOF_MM);
    mid := k.Blocks();
    SpaceRoot(k.m.mem, k.m.tab, kroot, mm.root, []);
    FreshIsFree(k.m.mem, k.m.tab, kroot, mm.root, areas);
    var i := 0;
    while i < |areas|
      invariant i <= |areas| && k.Valid() && k.Listed() && old(k.m.stray) <= k.m.stray && IsRoot(k.m.tab, mm.root)
                && |mm.vmas| == i
      invariant Confined(m0, t0, p0, k.m.mem, k.m.tab, k.m.pages, kroot, mm.root)
      invariant Losses(s0, n0, k.m.stray, k.m.failures)
      invariant ps == [] && mid == k.Blocks() && OwnBlocks(bs0, mid, [], mid, mm.Pointers())
      invariant StillFree(k.m.mem, mm.root, areas, i)
      invariant enough ==>
        && k.m.stray == old(k.m.stray) && RoomFor(k.Blocks(), |areas| - i)
        && OnlySpaceGrew(t0, p0, k.m.tab, k.m.pages, mm.root) && k.m.pmm.freePages + 1 + AreasNeed(areas, i) >= free
    {
      ghost var m1, t1, p1, s1, n1, bs1, before := k.m.mem, k.m.tab, k.m.pages, k.m.stray, k.m.failures, k.Blocks(),
          mm.blocks;
      AreaUnmapped(m1, mm.root, areas, i);
      AreasNeedGrows(areas, i + 1, |areas|);
      if enough {
        RoomNext(k.Blocks(), |areas| - i);
      }
      var s;
      ghost var taken;
      s, taken, mid, ps := MapRange(k, mm, areas[i].va, areas[i].size, areas[i].flags);
      LossesTrans(s0, n0, s1, n1, k.m.stray, k.m.failures);
      if s == Halted {
        return Halted, mm, mid, ps;
      }
      k.Parts();
      NextVma(bs0, bs1, mid, ps, k.Blocks(), before, mm.blocks, mm.block);
      ConfinedTrans(m0, t0, p0, m1, t1, p1, k.m.mem, k.m.tab, k.m.pages, kroot, mm.root);
      ConfinedRoot(m1, t1, p1, k.m.mem, k.m.tab, k.m.pages, kroot, mm.root, mm.root);
      OthersStayFree(m1, k.m.mem, mm.root, areas, i);
      if s == Failed {
        return Failed, mm, mid, ps;
      }
      SameHeap(bs0, mid, k.Blocks(), mm.Pointers());
      if enough {
        SpaceGrewTrans(t0, p0, t1, p1, k.m.tab, k.m.pages, mm.root);
      }
      i := i + 1;
    }
    r := Done;
  }

  lemma EnoughFrames(bs: seq<Block>, free: nat, areas: seq<Area>)
    requires Enough(bs, free, areas)
    ensures free >= 1 + AreasNeed(areas, |areas|)
  {
  }

  // Live, then mm_free. Whatever happened in between, the space leaves no table and no page
  // behind, and the translations of all other spaces are as before. Unless a frame was lost to a
  // failed table allocation, the bitmap is what it was, except for what the kernel heap grew by;
  // with enough heap room and frames it is exactly what it was.
  // `mid` is the heap after all kmalloc calls, `ps` lists the kfree calls: the blocks that others
  // hold survive if and only if those calls are careful (HeapUse.OthersKeepIff).
  method LiveAndDie(k: KernelHeap, areas: seq<Area>) returns (r: Status, ghost mid: seq<Block>, ghost ps: seq<nat>)
    requires k.Valid() && AreasOk(areas)
    modifies k`size, k`isFree, k`order, k`top, k.nodes, k.m`mem, k.m`tab, k.m`stray, k.m`failures, k.m`pages, k.m.pmm,
        k.m.pmm.bitmap
    ensures r != Halted ==> k.Valid() && old(k.m.stray) <= k.m.stray
    ensures r == Done ==>
              && OnlyKernelGrew(old(k.m.tab), old(k.m.pages), k.m.tab, k.m.pages, k.m.kroot)
              && EntriesKept(old(k.m.mem), k.m.mem, old(k.m.tab), HEAP_SLOT)
    ensures Losses(old(k.m.stray), old(k.m.failures), k.m.stray, k.m.failures)
    ensures r != Halted ==> OwnFrees(old(k.Blocks()), mid, ps, k.Blocks(), {})
    ensures r == Done && k.m.stray == old(k.m.stray) ==>
              BitmapRestored(old(k.m.pmm.Bits()), k.m.pmm.Bits(), old(k.m.tab), old(k.m.pages), k.m.tab, k.m.pages)
    ensures Enough(old(k.Blocks()), old(k.m.pmm.freePages), areas) ==>
              && r == Done && k.m.tab == old(k.m.tab) && k.m.pages == old(k.m.pages) && k.m.stray == old(k.m.stray)
              && k.m.pmm.Bits() == old(k.m.pmm.Bits())
  {
    hide TableWf, PagesWf, Entry, HeapSpec.Tiles, View, IntrusiveList.IsRing, Up, Idx, Pmm.CountFree, Pmm.BitsOf,
      WindowMapped, SlotReady, Confined, WithoutSpace, PagesWithout, Belongs, Released, OnlyKernelGrew,
      BitmapRestored, Accounted, Enough, OnlySpaceGrew, Dropped, EntriesKept, Losses, OwnBlocks, OwnFrees, Tiled,
      HeapRuns.FreeEach, Stale;
    ghost var m0, t0, p0, kroot := k.m.mem, k.m.tab, k.m.pages, k.m.kroot;
    ghost var enough := Enough(k.Blocks(), k.m.pmm.freePages, areas);
    var s, mm;
    s, mm, mid, ps := Live(k, areas);
    if s == Halted {
      return Halted, mid, ps;
    }
    ghost var bs1 := k.Blocks();
    if mm == null {
      OwnPart(old(k.Blocks()), mid, ps, bs1, []);
      return Failed, mid, ps;
    }
    ConfinedParts(m0, t0, p0, k.m.mem, k.m.tab, k.m.pages, kroot, mm.root);
    ConfinedEntries(m0, t0, p0, k.m.mem, k.m.tab, k.m.pages, kroot, mm.root);
    SpaceRemoved(m0, t0, p0, k.m.tab, k.m.pages, kroot, mm.root);
    if enough {
      NothingLeft(m0, t0, p0, k.m.tab, k.m.pages, kroot, mm.root);
    }
    ghost var log := MmFree(k, mm);
    BlocksBack(old(k.Blocks()), mid, ps, bs1, k.Blocks(), mm.Pointers());
    ps := ps + mm.Pointers();
    if k.m.stray == old(k.m.stray) {
      BitsFromOwners(old(k.m.pmm.Bits()), t0, p0, k.m.stray, k.m.pmm.Bits(), k.m.tab, k.m.pages, kroot);
      if enough {
        SameBits(old(k.m.pmm.Bits()), k.m.pmm.Bits(), t0, p0, k.m.stray);
      }
    }
    return Done, mid, ps;
  }

  lemma OwnPart(bs0: seq<Block>, mid: seq<Block>, ps: seq<nat>, bs1: seq<Block>, own: seq<nat>)
    requires OwnBlocks(bs0, mid, ps, bs1, own)
    ensures OwnFrees(bs0, mid, ps, bs1, {})
  {
  }

  lemma NoPointers(bs0: seq<Block>, mid: seq<Block>, ps: seq<nat>, bs1: seq<Block>)
    ensures OwnFrees(bs0, mid, ps, bs1, {}) ==> OwnBlocks(bs0, mid, ps, bs1, [])
  {
  }

  lemma {:induction false} ConfinedEntries(m0: Memory, t0: Tables, p0: Pages, m1: Memory, t1: Tables, p1: Pages,
                                           kroot: nat, r: nat)
    requires Confined(m0, t0, p0, m1, t1, p1, kroot, r) && r !in t0
    ensures EntriesKept(m0, m1, t0, HEAP_SLOT)
  {
    hide Entry, EntryKept;
    forall s, v: nat | IsRoot(t0, s) && v < VPN_LIMIT ensures EntryKept(m0, m1, HEAP_SLOT, s, v) {
      assert EntryConfined(m0, m1, r, s, v);
    }
  }

  lemma AreaUnmapped(mem: Memory, root: nat, areas: seq<Area>, i: nat)
    requires StillFree(mem, root, areas, i) && i < |areas| && AreasOk(areas)
    ensures AreaFits(areas[i])
    ensures RangeUnmapped(mem, root, FirstPage(areas[i].va), PageSpan(areas[i].va, areas[i].size))
  {
  }

  lemma {:induction false} ConfinedParts(m0: Memory, t0: Tables, p0: Pages, m1: Memory, t1: Tables, p1: Pages,
                                         kroot: nat, r: nat)
    requires Confined(m0, t0, p0, m1, t1, p1, kroot, r)
    ensures OwnersConfined(t0, p0, t1, p1, kroot, r) && |m1| == |m0|
  {
  }
}
