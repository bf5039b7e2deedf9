/** The kernel heap over its list of block headers and the kernel's page tables
    (kheap_expand, first_fit, kmalloc, kfree and kheap_init in kernel/src/mm/pmm.c).

    The fields of the headers are maps from header addresses; the links are in a NodeStore.
    The methods are proved to do what HeapSpec and HeapRuns say of the block sequence.
  */
module Heap {
  import opened Common
  import opened Pte
  import Pmm
  import opened PageTable
  import opened Machine
  import opened IntrusiveList
  import opened HeapSpec
  import HeapRuns
  import opened HeapUse

  const HEAD: nat := 0  // &kheap_list

  // Page number of the k-th page of the heap window.
  function HeapVpn(k: nat): nat { HEAP_SLOT * SLOT_PAGES + k }

  lemma HeapVpnIs(k: nat)
    requires k < SLOT_PAGES
    ensures (HEAP_BASE + k * PAGE_SIZE) / PAGE_SIZE % VPN_LIMIT == HeapVpn(k)
    ensures HeapVpn(k) < VPN_LIMIT && InHeapWindow(HeapVpn(k)) && HeapVpn(k) >= USER_LIMIT
  {
    assert HEAP_BASE / PAGE_SIZE % VPN_LIMIT == HEAP_SLOT * SLOT_PAGES;
    UpValues(HeapVpn(k));
  }

  // Exactly the first n pages of the window are mapped, writable and for the kernel alone.
  predicate WindowPage(mem: Memory, kroot: nat, n: nat, k: nat) {
    var e := Entry(mem, kroot, HeapVpn(k));
    if k < n then KernelPage(e) else !Present(e)
  }

  ghost predicate WindowMapped(mem: Memory, kroot: nat, n: nat) {
    forall k: nat {:trigger HeapVpn(k)} :: k < SLOT_PAGES ==> WindowPage(mem, kroot, n, k)
  }

  // The frames behind the first n pages of the window.
  ghost function FramesBehind(mem: Memory, kroot: nat, n: nat): set<nat> {
    if n == 0 then {} else FramesBehind(mem, kroot, n - 1) + {FrameOf(Entry(mem, kroot, HeapVpn(n - 1)))}
  }

  // Every heap page has a frame of its own, so the heap cannot outgrow physical memory, and
  // with at most 512 GB of memory it cannot outgrow its window.
  lemma {:induction false} FramesAreDistinct(mem: Memory, tab: Tables, pages: Pages, kroot: nat, n: nat)
    requires PagesWf(mem, tab, pages, kroot) && IsRoot(tab, kroot)
    requires n <= SLOT_PAGES && forall k :: 0 <= k < n ==> Present(Entry(mem, kroot, HeapVpn(k)))
    ensures |FramesBehind(mem, kroot, n)| == n
    ensures forall f :: f in FramesBehind(mem, kroot, n) ==>
              f in pages && f < |mem| && pages[f].root == kroot && pages[f].vpn < HeapVpn(n)
  {
    hide Entry, PagesWf, FrameOf, Present;
    if n > 0 {
      FramesAreDistinct(mem, tab, pages, kroot, n - 1);
      HeapPageHeld(mem, tab, pages, kroot, n - 1);
      var f := FrameOf(Entry(mem, kroot, HeapVpn(n - 1)));
      assert f !in FramesBehind(mem, kroot, n - 1);
    }
  }

  lemma {:induction false} HeapPageHeld(mem: Memory, tab: Tables, pages: Pages, kroot: nat, k: nat)
    requires PagesWf(mem, tab, pages, kroot) && IsRoot(tab, kroot) && k < SLOT_PAGES
              && Present(Entry(mem, kroot, HeapVpn(k)))
    ensures var f := FrameOf(Entry(mem, kroot, HeapVpn(k)));
            f in pages && f < |mem| && pages[f] == PageInfo(kroot, HeapVpn(k))
  {
    hide Entry, PagesWf, FrameOf, Present;
    HeapVpnIs(k);
    ListedPage(mem, tab, pages, kroot, kroot, HeapVpn(k));
    HeldPage(mem, tab, pages, kroot, FrameOf(Entry(mem, kroot, HeapVpn(k))));
  }

  function Range(n: nat): set<nat> {
    if n == 0 then {} else Range(n - 1) + {n - 1}
  }

  lemma {:induction false} RangeSize(n: nat)
    ensures |Range(n)| == n && forall f: nat :: f in Range(n) <==> f < n
  {
    if n > 0 {
      RangeSize(n - 1);
    }
  }

  lemma {:induction false} HeapFits(mem: Memory, tab: Tables, pages: Pages, kroot: nat, n: nat)
    requires PagesWf(mem, tab, pages, kroot) && IsRoot(tab, kroot) && 0 !in pages
    requires n <= SLOT_PAGES && WindowMapped(mem, kroot, n) && 0 < |mem|
    ensures n < |mem|
  {
    hide Entry, PagesWf;
    assert forall k :: 0 <= k < n ==> Present(Entry(mem, kroot, HeapVpn(k)));
    FramesAreDistinct(mem, tab, pages, kroot, n);
    RangeSize(|mem|);
    SmallerSet(FramesBehind(mem, kroot, n), Range(|mem|) - {0});
  }

  lemma {:induction false} WindowGrows(mem: Memory, mem': Memory, tab: Tables, kroot: nat, n: nat, e: Word)
    requires WindowMapped(mem, kroot, n) && n < SLOT_PAGES && IsRoot(tab, kroot) && KernelPage(e)
    requires FlatUpdate(mem, mem', tab, kroot, kroot, HeapVpn(n), e)
    ensures WindowMapped(mem', kroot, n + 1)
  {
    hide Entry, Present, RightsOf;
    var next := n + 1;
    forall k: nat | k < SLOT_PAGES ensures WindowPage(mem', kroot, next, k) {
      HeapVpnIs(k);
      assert WindowPage(mem, kroot, n, k);
    }
  }

  // ---- Headers as blocks ----

  function View(order: seq<nat>, size: map<nat, nat>, isFree: map<nat, bool>): (bs: seq<Block>)
    requires forall a :: a in order ==> a in size && a in isFree
    ensures |bs| == |order|
  {
    seq(|order|, i requires 0 <= i < |order| => Block(order[i], size[order[i]], isFree[order[i]]))
  }

  lemma {:induction false} ViewAt(order: seq<nat>, size: map<nat, nat>, isFree: map<nat, bool>, i: nat)
    requires forall a :: a in order ==> a in size && a in isFree
    requires i < |order|
    ensures View(order, size, isFree)[i] == Block(order[i], size[order[i]], isFree[order[i]])
  {
  }

  lemma {:induction false} ViewSet(order: seq<nat>, size: map<nat, nat>, isFree: map<nat, bool>, i: nat, s: nat,
                                   f: bool)
    requires forall a :: a in order ==> a in size && a in isFree
    requires Distinct(order) && i < |order|
    ensures View(order, size[order[i] := s], isFree[order[i] := f])
            == View(order, size, isFree)[i := Block(order[i], s, f)]
  {
  }

  lemma {:induction false} ViewRemove(order: seq<nat>, size: map<nat, nat>, isFree: map<nat, bool>, i: nat)
    requires forall a :: a in order ==> a in size && a in isFree
    requires i < |order|
    ensures forall a :: a in Removed(order, i) ==> a in order
    ensures View(Removed(order, i), size, isFree) == View(order, size, isFree)[..i] + View(order, size, isFree)[i + 1..]
  {
  }

  lemma DistinctTail(order: seq<nat>)
    requires Distinct([HEAD] + order)
    ensures Distinct(order) && HEAD !in order
  {
    var ring := [HEAD] + order;
    assert ring[0] == HEAD && forall k :: 0 <= k < |order| ==> ring[k + 1] == order[k];
    forall k | 0 <= k < |order| ensures order[k] != HEAD {
      assert ring[0] != ring[k + 1];
    }
  }

  lemma RemovedTail(order: seq<nat>, i: nat)
    requires i < |order|
    ensures Removed([HEAD] + order, i + 1) == [HEAD] + Removed(order, i)
  {
  }

  lemma {:induction false} RingOfOrder(next: map<nat, nat>, prev: map<nat, nat>, order: seq<nat>, i: nat)
    requires IsRing(next, prev, [HEAD] + order) && i < |order|
    ensures Distinct(order) && HEAD !in order
    ensures order[i] in next && order[i] in prev
    ensures next[order[i]] == if i + 1 < |order| then order[i + 1] else HEAD
    ensures prev[order[i]] == if i > 0 then order[i - 1] else HEAD
    ensures ([HEAD] + order)[i + 1] == order[i]
    ensures Removed([HEAD] + order, i + 1) == [HEAD] + Removed(order, i)
  {
    RingAt(next, prev, [HEAD] + order, i + 1);
    DistinctTail(order);
    RemovedTail(order, i);
    hide IsRing, Distinct, Removed;
  }

  // One expansion serves the request: the last block is free, and there are four frames for
  // each page it takes, for the page and its tables.
  predicate TailServes(bs: seq<Block>, size: nat, free: nat) {
    TailFree(bs) && size + HEADER_SIZE + PAGE_SIZE <= WORD_LIMIT && free >= 4 * HeapRuns.PagesNeeded(size)
  }

  lemma RetryFits(bs: seq<Block>, top: nat, size: nat, n: nat, free: nat)
    requires Tiles(bs, HEAP_BASE, top) && !Fits(bs, size) && n == HeapRuns.PagesNeeded(size)
    ensures TailServes(bs, size, free) ==> Fits(HeapSpec.Expand(bs, top, n, AsWritten), size) && free >= 4 * n
  {
    if TailServes(bs, size, free) {
      HeapRuns.PagesNeededSuffice(size);
      RetrySucceedsIff(bs, HEAP_BASE, top, n, size, AsWritten);
    }
  }

  datatype PtrResult = Ptr(address: nat) | Null | Fault

  datatype ExpandResult = Expanded | NoFrame | PageFault

  class KernelHeap {
    const m: Machine
    const nodes: NodeStore
    var size: map<nat, nat>
    var isFree: map<nat, bool>
    var top: nat
    ghost var order: seq<nat>

    // kheap_init before its first expansion: the empty list.
    constructor (machine: Machine)
      requires machine.Valid() && |machine.mem| <= SLOT_PAGES
      requires SlotReady(machine.mem, machine.tab, machine.kroot, HEAP_SLOT)
      requires WindowMapped(machine.mem, machine.kroot, 0)
      ensures m == machine && fresh(nodes) && Valid() && Blocks() == [] && top == HEAP_BASE
    {
      m := machine;
      nodes := new NodeStore();
      size, isFree := map[], map[];
      top := HEAP_BASE;
      order := [];
      new;
      nodes.ListInit(HEAD);
      assert [HEAD] + order == [HEAD];
    }

    // Pages in the heap window.
    ghost function PageCount(): nat
      reads this
    {
      (if top >= HEAP_BASE then top - HEAP_BASE else 0) / PAGE_SIZE
    }

    ghost predicate Valid()
      reads this, nodes, m, m.pmm, m.pmm.bitmap
    {
      && Listed() && m.Valid() && |m.mem| <= SLOT_PAGES
      && Tiles(Blocks(), HEAP_BASE, top)
      && top == HEAP_BASE + PageCount() * PAGE_SIZE
      && SlotReady(m.mem, m.tab, m.kroot, HEAP_SLOT)
      && WindowMapped(m.mem, m.kroot, PageCount())
    }

    // The list is well linked and every listed header has its fields.
    ghost predicate Listed()
      reads this, nodes
    {
      && nodes.Holds([HEAD] + order)
      && forall a :: a in order ==> a in size && a in isFree
    }

    ghost function Blocks(): (bs: seq<Block>)
      requires Listed()
      reads this, nodes
    {
      View(order, size, isFree)
    }

    // Writes the fields of one header.
    method SetHeader(hdr: nat, s: nat, f: bool, ghost i: nat)
      requires Listed() && i < |order| && hdr == order[i]
      modifies this`size, this`isFree
      ensures Listed() && Blocks() == old(Blocks())[i := Block(hdr, s, f)]
      ensures size == old(size)[hdr := s] && isFree == old(isFree)[hdr := f]
    {
      hide IsRing, Distinct;
      RingOfOrder(nodes.next, nodes.prev, order, i);
      ViewSet(order, size, isFree, i, s, f);
      size := size[hdr := s];
      isFree := isFree[hdr := f];
    }

    // list_del of a header
    method Unlink(hdr: nat, ghost i: nat)
      requires Listed() && i < |order| && hdr == order[i]
      modifies this`order, nodes
      ensures Listed() && order == Removed(old(order), i)
      ensures Blocks() == old(Blocks())[..i] + old(Blocks())[i + 1..]
    {
      hide IsRing, Distinct, View;
      RingOfOrder(nodes.next, nodes.prev, order, i);
      ViewRemove(order, size, isFree, i);
      nodes.ListDel(hdr, [HEAD] + order, i + 1);
      order := Removed(order, i);
    }

    // hdr->size += next->size + HEADER_SIZE; list_del(next)
    method Absorb(hdr: nat, next: nat, ghost i: nat)
      requires Listed() && i + 1 < |order| && hdr == order[i] && next == order[i + 1]
      modifies this`size, this`isFree, this`order, nodes
      ensures Listed() && order == Removed(old(order), i + 1)
      ensures Blocks() == MergeNext(old(Blocks()), i)
    {
      hide IsRing, Distinct, View;
      ViewAt(order, size, isFree, i);
      ViewAt(order, size, isFree, i + 1);
      SetHeader(hdr, size[hdr] + size[next] + HEADER_SIZE, isFree[hdr], i);
      Unlink(next, i + 1);
    }

    // kfree of the listed header order[i] (p = NULL is a no-op in the source).
    method Kfree(p: nat, ghost i: nat)
      requires Listed() && i < |order| && p == order[i] + HEADER_SIZE
      modifies this`size, this`isFree, this`order, nodes
      ensures Listed()
      ensures Blocks() == FreeAt(old(Blocks()), i, AsWritten)
    {
      hide IsRing, Distinct, View, MergeNext;
      var hdr: nat := p - HEADER_SIZE;
      ViewAt(order, size, isFree, i);
      if i + 1 < |order| {
        ViewAt(order, size, isFree, i + 1);
      }
      ghost var bs := Blocks();
      SetHeader(hdr, size[hdr], true, i);
      RingOfOrder(nodes.next, nodes.prev, order, i);
      var nextNode: nat := nodes.next[hdr];
      var prevNode: nat := nodes.prev[hdr];
      MergeForward(hdr, nextNode, i, bs);
      if prevNode != HEAD {
        ViewAt(order, size, isFree, i - 1);
        ViewAt(order, size, isFree, i);
        if prevNode + size[prevNode] + HEADER_SIZE == hdr {
          Absorb(prevNode, hdr, i - 1);
        }
      }
    }

    // kfree between heap operations: the heap stays tiled.
    method Release(p: nat, ghost i: nat)
      requires Valid() && i < |order| && p == order[i] + HEADER_SIZE
      modifies this`size, this`isFree, this`order, nodes
      ensures Valid() && Blocks() == FreeAt(old(Blocks()), i, AsWritten) == HeapRuns.FreeListed(old(Blocks()), p)
    {
      hide IsRing, Distinct, View, FreeAt, Tiles, WindowMapped;
      ViewAt(order, size, isFree, i);
      FreeListedAt(Blocks(), HEAP_BASE, top, i);
      FreeTiles(Blocks(), HEAP_BASE, top, i, AsWritten);
      Kfree(p, i);
    }

    // kfree of any pointer: the header is looked up among the listed ones.
    method FreePointer(p: nat)
      requires Valid()
      modifies this`size, this`isFree, this`order, nodes
      ensures Valid() && Blocks() == HeapRuns.FreeListed(old(Blocks()), p)
    {
      hide IsRing, Distinct, View, FreeAt, Tiles, WindowMapped, TableWf, PagesWf, Pmm.CountFree, Pmm.BitsOf;
      var found, i := FindHeader(p);
      if found {
        Release(p, i);
      }
    }

    // The position of the header in front of p, if it is listed.
    method FindHeader(p: nat) returns (found: bool, ghost i: nat)
      requires Listed()
      ensures i <= |order| && (found <==> i < |order|) && (found ==> p == order[i] + HEADER_SIZE)
      ensures i == if p >= HEADER_SIZE then HeapRuns.IndexOf(Blocks(), p - HEADER_SIZE) else |order|
    {
      hide IsRing, Distinct, View;
      i := 0;
      HeadLinks(nodes.next, nodes.prev, order);
      var cur: nat := nodes.next[HEAD];
      while cur != HEAD
        invariant i <= |order| && cur == if i < |order| then order[i] else HEAD
        invariant forall j :: 0 <= j < i ==> Blocks()[j].addr + HEADER_SIZE != p
        decreases |order| - i
      {
        RingOfOrder(nodes.next, nodes.prev, order, i);
        ViewAt(order, size, isFree, i);
        if p == cur + HEADER_SIZE {
          return true, i;
        }
        cur := nodes.next[cur];
        i := i + 1;
      }
      return false, i;
    }

    // The forward half of the merge in kfree.
    method MergeForward(hdr: nat, nextNode: nat, ghost i: nat, ghost bs: seq<Block>)
      requires Listed() && i < |order| && hdr == order[i]
      requires nextNode == if i + 1 < |order| then order[i + 1] else HEAD
      requires |bs| == |order| && Blocks() == bs[i := bs[i].(free := true)] && bs[i].addr == hdr
      requires i + 1 < |bs| ==> bs[i + 1].addr == order[i + 1]
      modifies this`size, this`isFree, this`order, nodes
      ensures Listed() && Blocks() == FreeForward(bs, i, AsWritten)
      ensures i < |order| && order[..i + 1] == old(order)[..i + 1]
    {
      hide IsRing, Distinct, View, MergeNext;
      RingOfOrder(nodes.next, nodes.prev, order, i);
      ViewAt(order, size, isFree, i);
      if nextNode != HEAD {
        ViewAt(order, size, isFree, i + 1);
        if hdr + size[hdr] + HEADER_SIZE == nextNode {
          Absorb(hdr, nextNode, i);
        }
      }
    }

    // Lists the page at `top` as a used block and frees it (the second half of the loop body
    // of kheap_expand).
    method AddPage()
      requires Listed() && Tiles(Blocks(), HEAP_BASE, top)
      modifies this`size, this`isFree, this`order, this`top, nodes
      ensures Listed() && top == old(top) + PAGE_SIZE
      ensures Blocks() == ExpandOne(old(Blocks()), old(top), AsWritten)
      ensures Tiles(Blocks(), HEAP_BASE, top)
    {
      hide IsRing, Distinct, View, FreeAt;
      ghost var bs := Blocks();
      TopIsNew(order, size, isFree, top);
      isFree := isFree[top := false];
      size := size[top := PAGE_SIZE - HEADER_SIZE];
      ViewAppend(order, old(size), old(isFree), top, PAGE_SIZE - HEADER_SIZE, false);
      nodes.ListAddBefore(top, HEAD, [HEAD] + order);
      assert [HEAD] + order + [top] == [HEAD] + (order + [top]);
      order := order + [top];
      Kfree(top + HEADER_SIZE, |order| - 1);
      ExpandOneTiles(bs, HEAP_BASE, top, AsWritten);
      top := top + PAGE_SIZE;
    }

    // The loop body of kheap_expand. PageFault: the header is written through a page that
    // vmm_map_page silently failed to map.
    method ExpandPage() returns (r: ExpandResult)
      requires Valid()
      modifies this`size, this`isFree, this`order, this`top, nodes, m`mem, m`tab, m`stray, m`failures, m`pages, m.pmm,
          m.pmm.bitmap
      ensures r != PageFault ==> Valid() && m.stray == old(m.stray)
      ensures r == Expanded ==> top == old(top) + PAGE_SIZE && m.pmm.freePages < old(m.pmm.freePages)
      ensures r == Expanded ==> Blocks() == ExpandOne(old(Blocks()), old(top), AsWritten)
      ensures m.pmm.freePages <= old(m.pmm.freePages)
      ensures r == NoFrame ==>
                top == old(top) && Blocks() == old(Blocks())
                && m.pmm.freePages == old(m.pmm.freePages) == 0
      // a page with its tables takes at most four frames, and a fault leaves none
      ensures r == PageFault ==> m.pmm.freePages == 0
      ensures old(m.pmm.freePages) >= 4 ==> r == Expanded && m.pmm.freePages + 4 >= old(m.pmm.freePages)
      ensures KernelGrowth(old(m.mem), old(m.tab), old(m.pages), m.mem, m.tab, m.pages, m.kroot, HEAP_SLOT)
      ensures Losses(old(m.stray), old(m.failures), m.stray, m.failures)
    {
      hide IsRing, Distinct, View, Tiles, TableWf, PagesWf, Entry, TableAt, Missing, FlatUpdate, SameEntries,
        WalksKept, MemGrows, TabGrows, KernelGrowth, Up, Idx, ExpandOne, Pmm.CountFree, Pmm.BitsOf, WindowMapped,
        Present, FrameOf, Machine.Valid, SlotReady, Losses, RightsOf, UpperRights, TablesAllow, MakeEntry;
      ghost var n, kroot := PageCount(), m.kroot;
      ghost var m0, t0, p0 := m.mem, m.tab, m.pages;
      m.Parts();
      PagesBelowWindow();
      HeapVpnIs(n);
      NextPageUnmapped(m0, kroot, n);
      AtMostThree(m0, kroot, HeapVpn(n));
      GrowthRefl(m0, t0, p0, kroot, HEAP_SLOT);
      var v := top / PAGE_SIZE % VPN_LIMIT;
      SlotMayMap(m0, t0, kroot, v);
      ghost var s0, n0 := m.stray, m.failures;
      LossesRefl(s0, n0);
      var f, mapped := m.MapNewPage(m.kroot, v, PTE_PRESENT + PTE_RW);
      LossesStep(s0, n0, s0, n0, m.stray, m.failures, f, f != 0 && !mapped);
      if f == 0 {
        return NoFrame;
      }
      m.Parts();
      var pt := m.GetPte(m.kroot, v);
      if mapped {
        KernelLeaf(f);
        FlatAt(m0, m.mem, t0, kroot, v, MakeEntry(f, PTE_PRESENT + PTE_RW));
      } else {
        GrowthBySame(m0, t0, p0, m.mem, m.tab, kroot, HEAP_SLOT);
        SameAt(m0, m.mem, t0, kroot, v);
      }
      if pt == 0 || !Present(m.mem[pt][Idx(v, 3)]) {
        return PageFault;
      }
      GrowthByPage(m0, t0, p0, m.mem, m.tab, kroot, v, f, MakeEntry(f, PTE_PRESENT + PTE_RW), HEAP_SLOT);
      WindowGrows(m0, m.mem, t0, kroot, n, MakeEntry(f, PTE_PRESENT + PTE_RW));
      MayMapKept(m0, t0, m.mem, m.tab, kroot, kroot, kroot, v);
      MayMapSlot(m.mem, m.tab, kroot, v);
      AddPage();
      return Expanded;
    }

    // kheap_expand. `pages` counts the rounds that succeeded.
    method Expand(n: nat) returns (r: ExpandResult, ghost pages: nat)
      requires Valid()
      modifies this`size, this`isFree, this`order, this`top, nodes, m`mem, m`tab, m`stray, m`failures, m`pages, m.pmm,
          m.pmm.bitmap
      ensures r != PageFault ==> Valid() && m.stray == old(m.stray)
      ensures r != PageFault ==> pages <= n && top == old(top) + pages * PAGE_SIZE
      ensures r != PageFault ==> Blocks() == HeapSpec.Expand(old(Blocks()), old(top), pages, AsWritten)
      ensures r == Expanded ==> pages == n && m.pmm.freePages + n <= old(m.pmm.freePages)
      ensures r == NoFrame ==> pages < n && m.pmm.freePages == 0
      ensures r == PageFault ==> m.pmm.freePages == 0
      ensures old(m.pmm.freePages) >= 4 * n ==> r == Expanded && m.pmm.freePages + 4 * n >= old(m.pmm.freePages)
      ensures m.pmm.freePages <= old(m.pmm.freePages)
      ensures KernelGrowth(old(m.mem), old(m.tab), old(m.pages), m.mem, m.tab, m.pages, m.kroot, HEAP_SLOT)
      ensures Losses(old(m.stray), old(m.failures), m.stray, m.failures)
    {
      hide IsRing, Distinct, View, Tiles, TableWf, PagesWf, Entry, TableAt, Missing, KernelGrowth, ExpandOne,
        Pmm.CountFree, Pmm.BitsOf, WindowMapped, Losses;
      pages := 0;
      ghost var m0, t0, p0, s0, n0, bs := m.mem, m.tab, m.pages, m.stray, m.failures, Blocks();
      LossesRefl(s0, n0);
      GrowthRefl(m0, t0, p0, m.kroot, HEAP_SLOT);
      for i := 0 to n
        invariant Valid() && m.stray == old(m.stray) && pages == i
        invariant top == old(top) + i * PAGE_SIZE && Listed()
        invariant Blocks() == HeapSpec.Expand(bs, old(top), i, AsWritten)
        invariant m.pmm.freePages + i <= old(m.pmm.freePages)
        invariant old(m.pmm.freePages) >= 4 * n ==> m.pmm.freePages + 4 * i >= old(m.pmm.freePages)
        invariant KernelGrowth(m0, t0, p0, m.mem, m.tab, m.pages, m.kroot, HEAP_SLOT)
        invariant Losses(s0, n0, m.stray, m.failures)
      {
        ghost var m1, t1, p1, s1, n1 := m.mem, m.tab, m.pages, m.stray, m.failures;
        r := ExpandPage();
        LossesTrans(s0, n0, s1, n1, m.stray, m.failures);
        GrowthTrans(m0, t0, p0, m1, t1, p1, m.mem, m.tab, m.pages, m.kroot, HEAP_SLOT);
        if r != Expanded {
          return;
        }
        pages := pages + 1;
      }
      r := Expanded;
    }

    // first_fit: the header address, 0 for NULL.
    method FirstFit(need: nat) returns (hdr: nat)
      requires Listed()
      ensures var i := HeapSpec.FirstFit(Blocks(), need, 0);
              if i < |order| then hdr == order[i] && hdr != 0 else hdr == 0
    {
      hide IsRing, Distinct, View;
      ghost var i := 0;
      HeadLinks(nodes.next, nodes.prev, order);
      var cur: nat := nodes.next[HEAD];
      while cur != HEAD
        invariant i <= |order| && cur == if i < |order| then order[i] else HEAD
        invariant HeapSpec.FirstFit(Blocks(), need, 0) == HeapSpec.FirstFit(Blocks(), need, i)
        decreases |order| - i
      {
        RingOfOrder(nodes.next, nodes.prev, order, i);
        ViewAt(order, size, isFree, i);
        if isFree[cur] && size[cur] >= need {
          return cur;
        }
        cur := nodes.next[cur];
        i := i + 1;
      }
      return 0;
    }

    // The second half of kmalloc: split the chosen block if the rest is large enough, mark it used.
    method Carve(target: nat, need: nat, ghost i: nat)
      requires Listed() && i < |order| && target == order[i] && Tiles(Blocks(), HEAP_BASE, top)
      requires Blocks()[i].size >= need && need % 8 == 0
      modifies this`size, this`isFree, this`order, nodes
      ensures Listed() && Blocks() == AllocAt(old(Blocks()), i, need)
      ensures Tiles(Blocks(), HEAP_BASE, top)
    {
      hide IsRing, Distinct, View;
      ghost var bs := Blocks();
      ViewAt(order, size, isFree, i);
      AllocTiles(bs, HEAP_BASE, top, i, need);
      if size[target] >= need + HEADER_SIZE + MIN_SPLIT {
        var rest := target + HEADER_SIZE + need;
        Split(target, rest, size[target] - need - HEADER_SIZE, i);
        SetHeader(target, need, isFree[target], i);
      }
      ViewAt(order, size, isFree, i);
      SetHeader(target, size[target], false, i);
    }

    // Lists a free header behind `target`.
    method Split(target: nat, rest: nat, restSize: nat, ghost i: nat)
      requires Listed() && i < |order| && target == order[i] && Tiles(Blocks(), HEAP_BASE, top)
      requires target < rest && rest < Blocks()[i].End()
      modifies this`size, this`isFree, this`order, nodes
      ensures Listed() && order == Inserted(old(order), i, rest)
      ensures Blocks() == old(Blocks())[..i + 1] + [Block(rest, restSize, true)] + old(Blocks())[i + 1..]
      ensures size == old(size)[rest := restSize] && isFree == old(isFree)[rest := true]
    {
      hide IsRing, Distinct, View;
      InnerIsNew(order, size, isFree, top, i, rest);
      ViewInsert(order, size, isFree, i, rest, restSize, true);
      isFree := isFree[rest := true];
      size := size[rest := restSize];
      nodes.ListAddAfter(rest, target, [HEAD] + order, i + 1);
      assert Inserted([HEAD] + order, i + 1, rest) == [HEAD] + Inserted(order, i, rest);
      order := Inserted(order, i, rest);
    }

    // kmalloc. `supply` is the number of pages the heap could still get.
    // `at` is the position of the block's header in the list.
    method Kmalloc(bytes: nat) returns (r: PtrResult, ghost supply: nat, ghost at: nat)
      requires Valid()
      modifies this`size, this`isFree, this`order, this`top, nodes, m`mem, m`tab, m`stray, m`failures, m`pages, m.pmm,
          m.pmm.bitmap
      ensures r != Fault ==> Valid() && m.stray == old(m.stray)
      ensures r != Fault ==>
                var o := HeapRuns.Kmalloc(old(Blocks()), old(top), HeapRuns.Align8(bytes), supply, AsWritten);
                Blocks() == o.bs && top == o.top
                && (if o.at.Some? then o.at.value < |o.bs|
                    && r == Ptr(o.bs[o.at.value].addr + HEADER_SIZE) else r == Null)
      ensures r.Ptr? ==> at < |order| && r.address == order[at] + HEADER_SIZE
      // nobody's block is touched, and the block handed out is one that nobody had
      ensures r != Fault ==> UsedKept(old(Blocks()), Blocks())
      ensures r.Ptr? ==> NewlyUsed(old(Blocks()), Blocks(), r.address, HeapRuns.Align8(bytes))
      // it holds all bytes asked for, unless rounding them up to a multiple of 8 wraps around
      ensures r.Ptr? && bytes + 7 < WORD_LIMIT ==> NewlyUsed(old(Blocks()), Blocks(), r.address, bytes)
      ensures r.Ptr? && WORD_LIMIT <= bytes + 7 ==> !InUse(Blocks(), r.address, bytes)
      ensures r == Null || r == Fault ==> m.pmm.freePages == 0
      // a fitting block is handed out and nothing else changes
      ensures Fits(old(Blocks()), HeapRuns.Align8(bytes)) ==>
                && r == Ptr(FittingPtr(old(Blocks()), HeapRuns.Align8(bytes))) && top == old(top)
                && Blocks() == AllocAt(old(Blocks()), HeapSpec.FirstFit(old(Blocks()), HeapRuns.Align8(bytes), 0),
                                       HeapRuns.Align8(bytes))
                && m.mem == old(m.mem) && m.tab == old(m.tab) && m.pages == old(m.pages)
                && m.pmm.freePages == old(m.pmm.freePages) && m.pmm.Bits() == old(m.pmm.Bits())
      // else, behind a free last block, four frames a page are enough
      ensures TailServes(old(Blocks()), HeapRuns.Align8(bytes), old(m.pmm.freePages)) ==>
                r.Ptr? && m.pmm.freePages + 4 * HeapRuns.PagesNeeded(HeapRuns.Align8(bytes)) >= old(m.pmm.freePages)
      ensures m.pmm.freePages <= old(m.pmm.freePages)
      ensures KernelGrowth(old(m.mem), old(m.tab), old(m.pages), m.mem, m.tab, m.pages, m.kroot, HEAP_SLOT)
      ensures Losses(old(m.stray), old(m.failures), m.stray, m.failures)
      decreases m.pmm.freePages
    {
      hide IsRing, Distinct, View, Tiles, TableWf, PagesWf, Entry, TableAt, Missing, KernelGrowth, HeapSpec.ExpandOne,
        HeapSpec.Expand, Pmm.CountFree, Pmm.BitsOf, WindowMapped, AllocAt, HeapRuns.PagesNeeded, HeapRuns.Kmalloc,
        HeapRuns.Align8, TailServes, Machine.Valid, SlotReady, HeapSpec.FirstFit, KernelHeap.PageCount, Losses, InUse,
        UsedKept;
      var need := HeapRuns.Align8(bytes);
      HeapRuns.Align8Multiple();
      ghost var m0, t0, p0, bs := m.mem, m.tab, m.pages, Blocks();
      GrowthRefl(m0, t0, p0, m.kroot, HEAP_SLOT);
      HeapRuns.KmallocUnfolds(bs, top, need);
      supply, at := 0, 0;
      ghost var s0, n0 := m.stray, m.failures;
      LossesRefl(s0, n0);
      var target := FirstFit(need);
      if target == 0 {
        var n := HeapRuns.PagesNeeded(need);
        RetryFits(bs, top, need, n, m.pmm.freePages);
        var grown, pages := Expand(n);
        ghost var m1, t1, p1, s1, n1 := m.mem, m.tab, m.pages, m.stray, m.failures;
        if grown == Expanded {
          r, supply, at := Kmalloc(need);
          LossesTrans(s0, n0, s1, n1, m.stray, m.failures);
          GrowthTrans(m0, t0, p0, m1, t1, p1, m.mem, m.tab, m.pages, m.kroot, HEAP_SLOT);
          HeapRuns.Align8Again(bytes);
          HeapRuns.KmallocRetries(bs, old(top), need, supply + n);
          supply := supply + n;
          if r != Fault {
            KmallocKeeps(bs, HEAP_BASE, old(top), need, supply);
          }
          if r.Ptr? {
            HoldsRequest(bs, r.address, bytes);
          }
          return;
        }
        supply := pages;
        if pages < n {
          HeapRuns.KmallocGivesUp(bs, old(top), need, pages);
          KmallocKeeps(bs, HEAP_BASE, old(top), need, pages);
        }
        return if grown == NoFrame then Null else Fault, supply, 0;
      }
      at := HeapSpec.FirstFit(bs, need, 0);
      KmallocKeeps(bs, HEAP_BASE, old(top), need, 0);
      AllocKeeps(bs, HEAP_BASE, old(top), at, need);
      var p := HandOut(target, need, at);
      r := Ptr(p);
      HoldsRequest(bs, p, bytes);
    }

    // The block found is carved and handed out.
    method HandOut(target: nat, need: nat, ghost i: nat) returns (p: nat)
      requires Valid() && i < |order| && target == order[i] && need % 8 == 0 && Blocks()[i].size >= need
      modifies this`size, this`isFree, this`order, nodes
      ensures Valid() && Blocks() == AllocAt(old(Blocks()), i, need)
      ensures i < |order| && p == order[i] + HEADER_SIZE && p == Blocks()[i].addr + HEADER_SIZE
    {
      hide IsRing, Distinct, View, Tiles, TableWf, PagesWf, Entry, Pmm.CountFree, Pmm.BitsOf, WindowMapped, AllocAt;
      ViewAt(order, size, isFree, i);
      AllocTiles(Blocks(), HEAP_BASE, top, i, need);
      Carve(target, need, i);
      ViewAt(order, size, isFree, i);
      p := target + HEADER_SIZE;
    }

    // The block at p holds the bytes asked for if and only if rounding them up did not wrap around.
    lemma HoldsRequest(bs0: seq<Block>, p: nat, bytes: nat)
      requires Valid() && NewlyUsed(bs0, Blocks(), p, HeapRuns.Align8(bytes))
      ensures bytes + 7 < WORD_LIMIT ==> NewlyUsed(bs0, Blocks(), p, bytes)
      ensures WORD_LIMIT <= bytes + 7 ==> !InUse(Blocks(), p, bytes)
    {
      hide Valid, InUse, HeapRuns.Align8, View;
      Parts();
      HeapRuns.Align8Covers(bytes);
      if bytes + 7 < WORD_LIMIT {
        FewerBytes(bs0, Blocks(), p, HeapRuns.Align8(bytes), bytes);
      } else if InUse(Blocks(), p, bytes) {
        HeapTiles();
        PagesBelowWindow();
        TopBound();
        WithinHeap(Blocks(), HEAP_BASE, top, p, bytes);
      }
    }

    // The heap has less than 512 GB.
    lemma TopBound()
      requires Valid()
      ensures top - HEAP_BASE < SLOT_PAGES * PAGE_SIZE
    {
      hide View, TableWf, PagesWf, Tiles;
      PagesBelowWindow();
    }

    lemma HeapTiles()
      requires Valid()
      ensures Tiles(Blocks(), HEAP_BASE, top)
    {
      hide View, TableWf, PagesWf, Tiles;
    }

    lemma BlockOf(i: nat)
      requires Valid() && i < |order|
      ensures i < |Blocks()| && Blocks()[i].addr == order[i]
    {
      hide View, TableWf, PagesWf, Tiles;
      ViewAt(order, size, isFree, i);
    }

    // A heap that holds a block has filled its slot of the kernel's PML4.
    lemma WindowInUse(i: nat)
      requires Valid() && i < |order|
      ensures PageCount() > 0 && Present(Read(m.mem, m.kroot, HEAP_SLOT))
    {
      hide TableWf, PagesWf, View;
      EndBound(Blocks(), HEAP_BASE, top, i);
      HeapVpnIs(0);
      FirstPageFillsSlot(m.mem, m.kroot, PageCount());
    }

    // What a valid heap says about the machine it runs on.
    lemma Parts()
      requires Valid()
      ensures Listed() && m.Valid() && TableWf(m.mem, m.tab, m.kroot) && PagesWf(m.mem, m.tab, m.pages, m.kroot)
      ensures IsRoot(m.tab, m.kroot) && m.tab[m.kroot].root == m.kroot
      ensures forall f :: f in m.pages ==> f !in m.tab
      ensures Tiled(Blocks()) && 0 !in m.tab
    {
      hide TableWf, PagesWf, View, Tiles, WindowMapped, SlotReady;
      m.KernelIsRoot();
    }

    lemma PagesBelowWindow()
      requires Valid()
      ensures PageCount() < SLOT_PAGES && PageCount() < |m.mem|
    {
      hide TableWf, Entry, Tiles;
      m.KernelIsRoot();
      if PageCount() <= SLOT_PAGES {
        HeapFits(m.mem, m.tab, m.pages, m.kroot, PageCount());
      } else {
        forall k: nat | k < SLOT_PAGES ensures WindowPage(m.mem, m.kroot, SLOT_PAGES, k) {
          assert WindowPage(m.mem, m.kroot, PageCount(), k);
        }
        HeapFits(m.mem, m.tab, m.pages, m.kroot, SLOT_PAGES);
      }
    }
  }

  lemma KernelLeaf(f: nat)
    requires f < FRAME_LIMIT
    ensures KernelPage(MakeEntry(f, PTE_PRESENT + PTE_RW)) && FrameOf(MakeEntry(f, PTE_PRESENT + PTE_RW)) == f
  {
    EntryRoundTrip(f, PTE_PRESENT + PTE_RW);
    EntryRights(f, PTE_PRESENT + PTE_RW);
  }

  lemma {:induction false} SlotMayMap(mem: Memory, tab: Tables, kroot: nat, v: nat)
    requires SlotReady(mem, tab, kroot, HEAP_SLOT) && IsRoot(tab, kroot) && InHeapWindow(v)
    ensures MayMap(mem, tab, kroot, kroot, v) && OwnsPage(kroot, kroot, v)
  {
  }

  lemma {:induction false} MayMapSlot(mem: Memory, tab: Tables, kroot: nat, v: nat)
    requires MayMap(mem, tab, kroot, kroot, v) && InHeapWindow(v)
    ensures SlotReady(mem, tab, kroot, HEAP_SLOT)
  {
    UpValues(v);
  }

  lemma FirstPageFillsSlot(mem: Memory, kroot: nat, n: nat)
    requires WindowMapped(mem, kroot, n) && n > 0
    ensures Present(Read(mem, kroot, HEAP_SLOT))
  {
    HeapVpnIs(0);
    assert Present(Entry(mem, kroot, HeapVpn(0)));
    SlotFilled(mem, kroot, HeapVpn(0), 3);
  }

  lemma NextPageUnmapped(mem: Memory, kroot: nat, n: nat)
    requires WindowMapped(mem, kroot, n) && n < SLOT_PAGES
    ensures !Present(Entry(mem, kroot, HeapVpn(n)))
  {
  }

  lemma {:induction false} FlatAt(mem: Memory, mem': Memory, tab: Tables, kroot: nat, v: nat, e: Word)
    requires FlatUpdate(mem, mem', tab, kroot, kroot, v, e) && IsRoot(tab, kroot) && v < VPN_LIMIT
    ensures Entry(mem', kroot, v) == e
  {
  }

  lemma {:induction false} SameAt(mem: Memory, mem': Memory, tab: Tables, r: nat, v: nat)
    requires SameEntries(mem, mem', tab) && IsRoot(tab, r) && v < VPN_LIMIT
    ensures Entry(mem', r, v) == Entry(mem, r, v)
  {
  }

  lemma {:induction false} TopIsNew(order: seq<nat>, size: map<nat, nat>, isFree: map<nat, bool>, top: nat)
    requires forall a :: a in order ==> a in size && a in isFree
    requires Tiles(View(order, size, isFree), HEAP_BASE, top)
    ensures top >= HEAP_BASE && top !in order && top !in [HEAD] + order
  {
    var bs := View(order, size, isFree);
    if bs != [] {
      EndBound(bs, HEAP_BASE, top, 0);
    }
    forall i | 0 <= i < |order| ensures order[i] != top {
      EndBound(bs, HEAP_BASE, top, i);
      ViewAt(order, size, isFree, i);
    }
  }

  lemma {:induction false} ViewAppend(order: seq<nat>, size: map<nat, nat>, isFree: map<nat, bool>, a: nat, s: nat,
                                      f: bool)
    requires forall a :: a in order ==> a in size && a in isFree
    requires a !in order
    ensures View(order + [a], size[a := s], isFree[a := f]) == View(order, size, isFree) + [Block(a, s, f)]
  {
  }

  lemma {:induction false} HeadLinks(next: map<nat, nat>, prev: map<nat, nat>, order: seq<nat>)
    requires IsRing(next, prev, [HEAD] + order)
    ensures HEAD in next && next[HEAD] == if order == [] then HEAD else order[0]
    ensures HEAD !in order
  {
    RingAt(next, prev, [HEAD] + order, 0);
    DistinctTail(order);
  }

  lemma {:induction false} InnerIsNew(order: seq<nat>, size: map<nat, nat>, isFree: map<nat, bool>, top: nat, i: nat,
                                      a: nat)
    requires forall b :: b in order ==> b in size && b in isFree
    requires Tiles(View(order, size, isFree), HEAP_BASE, top) && i < |order|
    requires order[i] < a < View(order, size, isFree)[i].End()
    ensures a !in order && a !in [HEAD] + order
  {
    var bs := View(order, size, isFree);
    forall k | 0 <= k < |order| ensures order[k] != a {
      ViewAt(order, size, isFree, k);
      ViewAt(order, size, isFree, i);
      if k < i {
        AddressesAscend(bs, HEAP_BASE, top, k, i);
      } else if k > i {
        AddressesAscend(bs, HEAP_BASE, top, i, k);
      }
    }
  }

  lemma {:induction false} ViewInsert(order: seq<nat>, size: map<nat, nat>, isFree: map<nat, bool>, i: nat, a: nat,
                                      s: nat, f: bool)
    requires forall b :: b in order ==> b in size && b in isFree
    requires a !in order && i < |order|
    ensures forall b :: b in Inserted(order, i, a) ==> b == a || b in order
    ensures View(Inserted(order, i, a), size[a := s], isFree[a := f])
            == View(order, size, isFree)[..i + 1] + [Block(a, s, f)] + View(order, size, isFree)[i + 1..]
  {
  }
}
