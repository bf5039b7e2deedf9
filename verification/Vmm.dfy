/** Address spaces: mm_alloc, mm_map_range, mm_copy and mm_free (kernel/src/mm/vmm.c).

    Virtual addresses of mapped ranges are held as page numbers. The blocks of the mm_struct and
    of the VMAs come from the kernel heap, which may grow by pages on the way.
  */
module Vmm {
  import opened Common
  import opened Pte
  import Pmm
  import opened PageTable
  import opened Machine
  import opened MapPages
  import opened Confine
  import opened Teardown
  import opened Heap
  import opened HeapSpec
  import HeapRuns
  import opened HeapUse
  import IntrusiveList

  const VM_WRITE: nat := 2
  const SIZEOF_MM: nat := 104
  const SIZEOF_VMA: nat := 48

  // Pages [start, end) with the vm_flags of the area.
  datatype Vma = Vma(start: nat, end: nat, flags: nat)

  // PTE_PRESENT | PTE_USER, and PTE_RW for a writable area.
  function PteFlags(vmFlags: nat): (flags: nat)
    ensures flags < PAGE_SIZE && flags % 2 == 1
  {
    if vmFlags / VM_WRITE % 2 == 1 then PTE_PRESENT + PTE_USER + PTE_RW else PTE_PRESENT + PTE_USER
  }

  // What an area asks for: its pages are user pages, and writable exactly when VM_WRITE is set.
  function VmaRights(vmFlags: nat): Rights { Rights(vmFlags / VM_WRITE % 2 == 1, true) }

  lemma PteFlagsRights(vmFlags: nat)
    ensures RightsOf(PteFlags(vmFlags)) == VmaRights(vmFlags)
  {
  }

  predicate Covers(a: Vma, v: nat) { a.start <= v < a.end }

  ghost predicate InVmas(vmas: seq<Vma>, v: nat) {
    exists k :: 0 <= k < |vmas| && Covers(vmas[k], v)
  }

  ghost predicate VmasOk(vmas: seq<Vma>) {
    && (forall k :: 0 <= k < |vmas| ==> vmas[k].start < vmas[k].end <= USER_LIMIT)
    && (forall j, k :: 0 <= j < k < |vmas| ==> vmas[j].end <= vmas[k].start || vmas[k].end <= vmas[j].start)
  }

  // The entry has the rights that the area of page v asks for.
  ghost predicate AsAsked(vmas: seq<Vma>, v: nat, e: Word) {
    forall k :: 0 <= k < |vmas| && Covers(vmas[k], v) ==> RightsOf(e) == VmaRights(vmas[k].flags)
  }

  predicate AllWritable(vmas: seq<Vma>) { forall k :: 0 <= k < |vmas| ==> VmaRights(vmas[k].flags).write }

  // What the entries above the pages of a space allow at least: user mode, and writes if all areas do.
  function TableRights(vmas: seq<Vma>): Rights { Rights(AllWritable(vmas), true) }

  // A page of an area is mapped as asked, the entry of any other user page is 0, and the entries above
  // let user mode pass.
  ghost predicate MappedIffListed(mem: Memory, root: nat, vmas: seq<Vma>, v: nat) {
    && Allows(UpperRights(mem, root, v), TableRights(vmas))
    && if InVmas(vmas, v) then Present(Entry(mem, root, v)) && AsAsked(vmas, v, Entry(mem, root, v))
       else Entry(mem, root, v) == 0
  }

  // A live address space: its areas are disjoint and exactly their pages are mapped.
  ghost predicate SpaceOk(mem: Memory, tab: Tables, kroot: nat, root: nat, vmas: seq<Vma>) {
    && IsRoot(tab, root) && root != kroot && VmasOk(vmas)
    && forall v: nat {:trigger MappedIffListed(mem, root, vmas, v)} :: v < USER_LIMIT ==>
       MappedIffListed(mem, root, vmas, v)
  }

  // Weaker, and true after failed calls too: the entry of a page of an area is 0 or as the area asks,
  // and that of any other user page is 0.
  ghost predicate CoveredAt(mem: Memory, root: nat, vmas: seq<Vma>, v: nat) {
    && Allows(UpperRights(mem, root, v), TableRights(vmas))
    && (Entry(mem, root, v) == 0
        || (InVmas(vmas, v) && Present(Entry(mem, root, v)) && AsAsked(vmas, v, Entry(mem, root, v))))
  }

  // User mode may use every mapped page of a space, and its entry is writable exactly when its area is.
  // Writes pass when the entries above allow them too, as they do while all areas are writable.
  lemma {:induction false} CoveredRights(mem: Memory, tab: Tables, kroot: nat, root: nat, vmas: seq<Vma>, k: nat,
                                         v: nat)
    requires Covered(mem, tab, kroot, root, vmas) && k < |vmas| && Covers(vmas[k], v) && Present(Entry(mem, root, v))
    ensures forall e :: e in WalkEntries(mem, root, v) ==> Present(e) && RightsOf(e).user
    ensures RightsOf(Entry(mem, root, v)).write <==> vmas[k].flags / VM_WRITE % 2 == 1
    ensures PageRights(mem, root, v) ==
            Rights(UpperRights(mem, root, v).write && vmas[k].flags / VM_WRITE % 2 == 1, true)
    ensures AllWritable(vmas) ==> PageRights(mem, root, v) == ALL_RIGHTS
  {
    hide Entry, UpperRights, RightsOf, WalkEntries;
    ZeroIsAbsent();
    assert CoveredAt(mem, root, vmas, v);
    RightsOfWalk(mem, root, v);
  }

  // All entries above the user half allow everything, as in a new space.
  ghost predicate TablesOpen(mem: Memory, root: nat) {
    forall v: nat {:trigger UpperRights(mem, root, v)} :: v < USER_LIMIT ==> UpperRights(mem, root, v) == ALL_RIGHTS
  }

  // What the entries above the user half allow after tables were hung under entries with these rights;
  // above a page that was mapped they are as before.
  ghost predicate UppersKept(m0: Memory, m1: Memory, root: nat, fl: Rights) {
    forall v: nat {:trigger UpperRights(m1, root, v)} :: v < USER_LIMIT ==>
      && UpperAllows(m0, m1, fl, root, v)
      && (Present(Entry(m0, root, v)) ==> UpperRights(m1, root, v) == UpperRights(m0, root, v))
  }

  // Each mapped page of the range has these rights, less what tables that were there before withhold.
  ghost predicate RangeRights(m0: Memory, m1: Memory, root: nat, start: nat, n: nat, fl: Rights) {
    forall v: nat {:trigger Entry(m1, root, v)} :: start <= v < start + n && Present(Entry(m1, root, v)) ==>
      RightsOf(Entry(m1, root, v)) == fl && PageRights(m1, root, v) == Both(UpperRights(m0, root, v), fl)
  }

  lemma {:induction false} RightsOfRange(m0: Memory, m1: Memory, root: nat, start: nat, n: nat, fl: Rights)
    requires MappedOrZero(m1, root, start, n, fl) && UppersKept(m0, m1, root, fl) && start + n <= USER_LIMIT
    ensures RangeRights(m0, m1, root, start, n, fl)
  {
    hide Entry, UpperRights, RightsOf;
    ZeroIsAbsent();
    forall v: nat | start <= v < start + n && Present(Entry(m1, root, v))
      ensures RightsOf(Entry(m1, root, v)) == fl && PageRights(m1, root, v) == Both(UpperRights(m0, root, v), fl)
    {
      assert UpperAllows(m0, m1, fl, root, v);
    }
  }

  lemma {:induction false} NewIsOpen(mem: Memory, tab: Tables, kroot: nat, root: nat)
    requires SpaceOk(mem, tab, kroot, root, [])
    ensures TablesOpen(mem, root)
  {
    hide Entry, UpperRights;
    forall v: nat | v < USER_LIMIT ensures UpperRights(mem, root, v) == ALL_RIGHTS {
      assert MappedIffListed(mem, root, [], v);
    }
  }

  // Tables for a writable area keep it so.
  lemma {:induction false} OpenStays(m0: Memory, m1: Memory, root: nat)
    requires TablesOpen(m0, root) && UppersKept(m0, m1, root, ALL_RIGHTS)
    ensures TablesOpen(m1, root)
  {
    hide Entry, UpperRights;
    forall v: nat | v < USER_LIMIT ensures UpperRights(m1, root, v) == ALL_RIGHTS {
      assert UpperAllows(m0, m1, ALL_RIGHTS, root, v);
    }
  }

  lemma {:induction false} UppersSame(m0: Memory, m1: Memory, root: nat, fl: Rights)
    requires forall v: nat :: v < USER_LIMIT ==> UpperRights(m1, root, v) == UpperRights(m0, root, v)
    ensures UppersKept(m0, m1, root, fl)
  {
    hide Entry, UpperRights;
    forall v: nat | v < USER_LIMIT ensures UpperAllows(m0, m1, fl, root, v) {
      assert UpperRights(m1, root, v) == UpperRights(m0, root, v);
    }
  }

  lemma {:induction false} UppersTrans(m0: Memory, m1: Memory, m2: Memory, root: nat, fl: Rights)
    requires UppersKept(m0, m1, root, fl) && UppersKept(m1, m2, root, fl)
    requires forall v: nat :: v < USER_LIMIT && Present(Entry(m0, root, v)) ==> Present(Entry(m1, root, v))
    ensures UppersKept(m0, m2, root, fl)
  {
    hide Entry, UpperRights;
    forall v: nat | v < USER_LIMIT
      ensures UpperAllows(m0, m2, fl, root, v)
              && (Present(Entry(m0, root, v)) ==> UpperRights(m2, root, v) == UpperRights(m0, root, v))
    {
      assert UpperAllows(m0, m1, fl, root, v) && UpperAllows(m1, m2, fl, root, v);
    }
  }

  // Mapping pages of a space.
  lemma {:induction false} UppersAfter(m0: Memory, t0: Tables, m1: Memory, t1: Tables, root: nat, fl: Rights)
    requires Structure(m0, t0, m1, t1, root) && TablesAllow(m0, m1, t0, fl) && IsRoot(t0, root)
    ensures UppersKept(m0, m1, root, fl)
  {
    hide Entry, UpperRights, WalksKept, TableAt;
    forall v: nat | v < USER_LIMIT
      ensures UpperAllows(m0, m1, fl, root, v)
              && (Present(Entry(m0, root, v)) ==> UpperRights(m1, root, v) == UpperRights(m0, root, v))
    {
      if Present(Entry(m0, root, v)) {
        MappedHasTables(m0, root, v);
        MappedKeepsUpper(m0, m1, t0, root, v);
      }
    }
  }

  ghost predicate Covered(mem: Memory, tab: Tables, kroot: nat, root: nat, vmas: seq<Vma>) {
    && IsRoot(tab, root) && root != kroot && VmasOk(vmas)
    && forall v: nat {:trigger CoveredAt(mem, root, vmas, v)} :: v < USER_LIMIT ==> CoveredAt(mem, root, vmas, v)
  }

  // The areas leave pages [start, start + n) alone.
  predicate ApartFrom(vmas: seq<Vma>, start: nat, n: nat) {
    forall k :: 0 <= k < |vmas| ==> vmas[k].end <= start || start + n <= vmas[k].start
  }

  lemma {:induction false} OkIsCovered(mem: Memory, tab: Tables, kroot: nat, root: nat, vmas: seq<Vma>)
    requires SpaceOk(mem, tab, kroot, root, vmas)
    ensures Covered(mem, tab, kroot, root, vmas)
  {
    hide Entry, UpperRights, AsAsked;
    forall v: nat | v < USER_LIMIT ensures CoveredAt(mem, root, vmas, v) {
      assert MappedIffListed(mem, root, vmas, v);
    }
  }

  lemma {:induction false} CoveredApart(mem: Memory, tab: Tables, kroot: nat, root: nat, vmas: seq<Vma>, start: nat,
                                        n: nat)
    requires Covered(mem, tab, kroot, root, vmas) && ApartFrom(vmas, start, n) && start + n <= USER_LIMIT
    ensures RangeUnmapped(mem, root, start, n)
  {
    hide Entry, UpperRights, AsAsked;
    forall u: nat | start <= u < start + n ensures Entry(mem, root, u) == 0 {
      assert CoveredAt(mem, root, vmas, u);
    }
  }

  // Mapping some pages of a range, listed or not when nothing of it is mapped.
  lemma {:induction false} CoveredGrows(m0: Memory, t0: Tables, m1: Memory, t1: Tables, kroot: nat, root: nat,
                                        vmas: seq<Vma>, start: nat, n: nat, vmFlags: nat)
    requires Covered(m0, t0, kroot, root, vmas) && ApartFrom(vmas, start, n) && IsRoot(t1, root) && n > 0
              && start + n <= USER_LIMIT
    requires KeptOutside(m0, m1, root, start, n) && MappedOrZero(m1, root, start, n, VmaRights(vmFlags))
    requires UppersKept(m0, m1, root, VmaRights(vmFlags))
    ensures Covered(m1, t1, kroot, root, vmas + [Vma(start, start + n, vmFlags)])
    ensures RangeUnmapped(m1, root, start, n) && UppersKept(m0, m1, root, ALL_RIGHTS) ==>
              Covered(m1, t1, kroot, root, vmas)
  {
    hide Entry, UpperRights, RightsOf;
    AllWritableNext(vmas, Vma(start, start + n, vmFlags));
    var a := Vma(start, start + n, vmFlags);
    var vmas' := vmas + [a];
    forall v: nat | v < USER_LIMIT ensures CoveredAt(m1, root, vmas', v) {
      assert CoveredAt(m0, root, vmas, v) && UpperAllows(m0, m1, VmaRights(vmFlags), root, v);
      if Covers(a, v) {
        assert Covers(vmas'[|vmas|], v);
        assert Entry(m1, root, v) == 0 || Present(Entry(m1, root, v));
      } else {
        ListedElsewhere(vmas, a, v);
        assert Entry(m1, root, v) == Entry(m0, root, v);
      }
    }
    if RangeUnmapped(m1, root, start, n) && UppersKept(m0, m1, root, ALL_RIGHTS) {
      forall v: nat | v < USER_LIMIT ensures CoveredAt(m1, root, vmas, v) {
        assert CoveredAt(m0, root, vmas, v) && UpperAllows(m0, m1, ALL_RIGHTS, root, v);
        if start <= v < start + n {
          assert Entry(m1, root, v) == 0;
        } else {
          assert Entry(m1, root, v) == Entry(m0, root, v);
        }
      }
    }
  }

  lemma AllWritableNext(vmas: seq<Vma>, a: Vma)
    ensures AllWritable(vmas + [a]) <==> AllWritable(vmas) && VmaRights(a.flags).write
  {
    assert forall k :: 0 <= k < |vmas| ==> (vmas + [a])[k] == vmas[k];
    assert (vmas + [a])[|vmas|] == a;
  }

  class Mm {
    const root: nat  // pml4_pa / PAGE_SIZE
    var vmas: seq<Vma>
    var mapCount: nat
    var brk: nat     // mm->heap
    const block: nat        // the heap block of the mm_struct
    var blocks: seq<nat>    // the heap blocks of the VMAs, in list order

    constructor (pml4: nat, at: nat)
      ensures root == pml4 && vmas == [] && mapCount == 0 && brk == 0 && block == at && blocks == []
    {
      root := pml4;
      block := at;
      blocks := [];
      vmas := [];
      mapCount := 0;
      brk := 0;
    }

    // The kfree calls of mm_free, in order.
    function Pointers(): seq<nat>
      reads this
    {
      blocks + [block]
    }

    ghost predicate Ok(m: Machine)
      reads this, m
    {
      SpaceOk(m.mem, m.tab, m.kroot, root, vmas)
    }
  }

  datatype AllocResult = Space(mm: Mm) | NoSpace | AllocFault

  datatype Status = Done | Failed | Halted

  // memset of a fresh PML4, then the copy loop of mm_alloc over entries 256..511.
  method FillRoot(m: Machine, root: nat)
    requires m.Valid() && root in m.stray && root != 0
    modifies m`mem, m`tab, m`stray
    ensures m.Valid() && m.stray == old(m.stray) - {root}
    ensures m.tab == old(m.tab)[root := TableInfo(root, 0, 0, root)] && root !in old(m.tab)
    ensures |m.mem| == |old(m.mem)| && m.mem == old(m.mem)[root := m.mem[root]]
    ensures SameEntries(old(m.mem), m.mem, old(m.tab))
    ensures forall v: nat :: v < USER_LIMIT ==> Entry(m.mem, root, v) == 0
    ensures TablesOpen(m.mem, root)
  {
    hide TableWf, PagesWf, Entry, UpperRights, Pmm.CountFree, Pmm.BitsOf, Up, Idx;
    ghost var m0 := m.mem;
    m.KernelIsRoot();
    Linked(m.mem, m.tab, m.kroot, m.kroot);
    m.mem := m.mem[root := ZeroFrame()];
    var i := 256;
    while i < 512
      invariant m.tab == old(m.tab) && m.stray == old(m.stray)
      invariant 256 <= i <= 512 && |m.mem| == |m0| && m.mem == m0[root := m.mem[root]]
      invariant forall j :: 0 <= j < 512 ==> m.mem[root][j] == if 256 <= j < i then m0[m.kroot][j] else 0
    {
      m.mem := WriteWord(m.mem, root, i, m.mem[m.kroot][i]);
      i := i + 1;
    }
    NewRoot(m0, m.mem, m.tab, m.kroot, root);
    RootAdds(m0, m.mem, m.tab, m.pages, m.kroot, root);
    m.tab := m.tab[root := TableInfo(root, 0, 0, root)];
    m.stray := m.stray - {root};
  }

  lemma {:induction false} RootAdds(m0: Memory, m1: Memory, tab: Tables, pages: Pages, kroot: nat, root: nat)
    requires PagesWf(m0, tab, pages, kroot) && root !in tab && root != kroot && |m1| == |m0|
    requires SameEntries(m0, m1, tab) && forall v: nat :: v < USER_LIMIT ==> Entry(m1, root, v) == 0
    ensures PagesWf(m1, tab[root := TableInfo(root, 0, 0, root)], pages, kroot)
  {
    hide Entry, FrameOf;
    var tab' := tab[root := TableInfo(root, 0, 0, root)];
    forall f | f in pages ensures PageHeld(m1, tab', pages, kroot, f) {
      assert PageHeld(m0, tab, pages, kroot, f);
    }
    forall r: nat, v: nat ensures PageListed(m1, tab', pages, kroot, r, v) {
      assert PageListed(m0, tab, pages, kroot, r, v);
    }
  }

  // The PML4 part of mm_alloc: 0 when no frame is free. The heap already holds the mm_struct's
  // block, so the heap's PML4 slot is filled when it is copied.
  method NewPml4(k: KernelHeap, ghost at: nat) returns (root: nat)
    requires k.Valid() && at < |k.order|
    modifies k.m`mem, k.m`tab, k.m`stray, k.m.pmm, k.m.pmm.bitmap
    ensures k.Valid() && k.m.stray == old(k.m.stray)
    ensures root == 0 <==> old(k.m.pmm.freePages) == 0
    ensures k.m.pmm.freePages == if root == 0 then 0 else old(k.m.pmm.freePages) - 1
    ensures root == 0 ==> k.m.mem == old(k.m.mem) && k.m.tab == old(k.m.tab)
    ensures root != 0 ==>
              root !in old(k.m.tab) && root !in k.m.pages
              && k.m.tab == old(k.m.tab)[root := TableInfo(root, 0, 0, root)]
    ensures root != 0 ==>
              Confined(old(k.m.mem), old(k.m.tab), k.m.pages, k.m.mem, k.m.tab, k.m.pages, k.m.kroot, root)
              && SpaceOk(k.m.mem, k.m.tab, k.m.kroot, root, [])
  {
    hide TableWf, PagesWf, Entry, UpperRights, Tiles, WindowMapped, View, IntrusiveList.IsRing, Up, Idx,
      Pmm.CountFree, Pmm.BitsOf, Confined;
    ghost var m1, t1 := k.m.mem, k.m.tab;
    k.m.KernelIsRoot();
    k.WindowInUse(at);
    root := k.m.AllocFrame();
    if root == 0 {
      return;
    }
    FillRoot(k.m, root);
    NewRootIsConfined(m1, t1, k.m.pages, k.m.mem, k.m.kroot, root);
    WindowSame(m1, k.m.mem, t1, k.m.kroot, k.PageCount());
    EmptySpaceOk(k.m.mem, k.m.tab, k.m.kroot, root);
  }

  // mm_alloc. `mid` is the heap after kmalloc, `ps` lists the kfree calls that follow.
  method MmAlloc(k: KernelHeap) returns (r: AllocResult, ghost mid: seq<Block>, ghost ps: seq<nat>)
    requires k.Valid()
    modifies k`size, k`isFree, k`order, k`top, k.nodes, k.m`mem, k.m`tab, k.m`stray, k.m`failures, k.m`pages, k.m.pmm,
        k.m.pmm.bitmap
    ensures !r.AllocFault? ==> k.Valid() && k.m.stray == old(k.m.stray)
    ensures Losses(old(k.m.stray), old(k.m.failures), k.m.stray, k.m.failures)
    // the mm_struct lies in a block that nobody had; without a PML4 it is given back
    ensures r.Space? ==> r.mm.blocks == [] && NewlyUsed(old(k.Blocks()), k.Blocks(), r.mm.block, SIZEOF_MM) && ps == []
    ensures !r.AllocFault? ==> OwnFrees(old(k.Blocks()), mid, ps, k.Blocks(), {})
    ensures r.Space? ==>
              && fresh(r.mm) && r.mm.vmas == [] && r.mm.Ok(k.m)
              && r.mm.root !in old(k.m.tab) && r.mm.root !in old(k.m.pages)
              && Confined(old(k.m.mem), old(k.m.tab), old(k.m.pages), k.m.mem, k.m.tab, k.m.pages, k.m.kroot, r.mm.root)
    // otherwise only the heap has grown, and no frame is left
    ensures !r.Space? ==>
              && Confined(old(k.m.mem), old(k.m.tab), old(k.m.pages), k.m.mem, k.m.tab, k.m.pages, k.m.kroot, k.m.kroot)
              && k.m.pmm.freePages == 0
    // a fitting block and one frame are enough, or a free last block and five
    ensures Fits(old(k.Blocks()), SIZEOF_MM) && old(k.m.pmm.freePages) >= 1 ==>
              && r.Space? && k.m.pmm.freePages == old(k.m.pmm.freePages) - 1
              && r.mm.block == FittingPtr(old(k.Blocks()), SIZEOF_MM)
              && OnlySpaceGrew(old(k.m.tab), old(k.m.pages), k.m.tab, k.m.pages, r.mm.root)
              && k.Blocks() == AllocAt(old(k.Blocks()), FirstFit(old(k.Blocks()), SIZEOF_MM, 0), SIZEOF_MM)
              && k.top == old(k.top)
    ensures r.Space? ==> k.m.pmm.freePages <= old(k.m.pmm.freePages)
    ensures TailFree(old(k.Blocks())) && old(k.m.pmm.freePages) >= 5 ==>
              r.Space? && k.m.pmm.freePages + 5 >= old(k.m.pmm.freePages)
  {
    hide TableWf, PagesWf, Entry, KernelGrowth, Tiles, FreeAt, WindowMapped, View, IntrusiveList.IsRing, Up, Idx,
      Pmm.CountFree, Pmm.BitsOf, Confined, SpaceOk, AllocAt, Fits, TailFree, TailServes, HeapRuns.Kmalloc,
      OnlySpaceGrew, Machine.Valid, KernelHeap.Valid, Losses, InUse, UsedKept, OwnFrees;
    k.Parts();
    ghost var m0, t0, p0, bs0 := k.m.mem, k.m.tab, k.m.pages, k.Blocks();
    SmallSizes(bs0, k.m.pmm.freePages);
    mid, ps := [], [];
    var p, _, at := k.Kmalloc(SIZEOF_MM);
    ghost var m1, t1, p1 := k.m.mem, k.m.tab, k.m.pages;
    GrowthIsConfined(m0, t0, p0, m1, t1, p1, k.m.kroot, k.m.kroot);
    if p == Fault {
      return AllocFault, mid, ps;
    }
    k.Parts();
    mid := k.Blocks();
    NoFrees(bs0, mid);
    if p == Null {
      return NoSpace, mid, ps;
    }
    k.BlockOf(at);
    var root := NewPml4(k, at);
    if root == 0 {
      k.Release(p.address, at);
      k.Parts();
      OneFree(bs0, mid, p.address, k.Blocks());
      return NoSpace, mid, [p.address];
    }
    GrowthIsConfined(m0, t0, p0, m1, t1, p1, k.m.kroot, root);
    ConfinedTrans(m0, t0, p0, m1, t1, p1, k.m.mem, k.m.tab, k.m.pages, k.m.kroot, root);
    GrowthKeepsOwners(m0, t0, p0, m1, t1, p1, k.m.kroot);
    RootGrowth(t1, p1, root);
    var mm := new Mm(root, p.address);
    return Space(mm), mid, ps;
  }

  // New tables and pages belong to the space r.
  ghost predicate OnlySpaceGrew(t0: Tables, p0: Pages, t1: Tables, p1: Pages, r: nat) {
    && (forall g :: g in t0 ==> g in t1 && t1[g] == t0[g])
    && (forall g :: g in t1 && g !in t0 ==> t1[g].root == r)
    && (forall f :: f in p0 ==> f in p1 && p1[f] == p0[f])
    && (forall f :: f in p1 && f !in p0 ==> p1[f].root == r)
  }

  lemma {:induction false} RootGrowth(t: Tables, p: Pages, r: nat)
    requires r !in t
    ensures OnlySpaceGrew(t, p, t[r := TableInfo(r, 0, 0, r)], p, r)
  {
  }

  // The blocks of an mm_struct and of a VMA are one page at most.
  lemma SmallSizes(bs: seq<Block>, free: nat)
    ensures HeapRuns.Align8(SIZEOF_MM) == SIZEOF_MM && HeapRuns.Align8(SIZEOF_VMA) == SIZEOF_VMA
    ensures HeapRuns.PagesNeeded(SIZEOF_MM) == 1 && HeapRuns.PagesNeeded(SIZEOF_VMA) == 1
    ensures TailFree(bs) && free >= 4 ==> TailServes(bs, SIZEOF_MM, free) && TailServes(bs, SIZEOF_VMA, free)
  {
  }

  lemma {:induction false} GrowthKeepsOwners(m0: Memory, t0: Tables, p0: Pages, m1: Memory, t1: Tables, p1: Pages,
                                             kroot: nat)
    requires KernelGrowth(m0, t0, p0, m1, t1, p1, kroot, HEAP_SLOT)
    ensures forall g :: g in t0 ==> g in t1
    ensures forall f :: f in p0 ==> f in p1
  {
  }

  lemma {:induction false} EmptySpaceOk(mem: Memory, tab: Tables, kroot: nat, root: nat)
    requires IsRoot(tab, root) && root != kroot && forall v: nat :: v < USER_LIMIT ==> Entry(mem, root, v) == 0
    requires TablesOpen(mem, root)
    ensures SpaceOk(mem, tab, kroot, root, [])
  {
    hide Entry, UpperRights;
    forall v: nat | v < USER_LIMIT ensures MappedIffListed(mem, root, [], v) {
      assert Entry(mem, root, v) == 0;
    }
  }

  lemma {:induction false} WindowSame(m0: Memory, m1: Memory, tab: Tables, kroot: nat, n: nat)
    requires SameEntries(m0, m1, tab) && IsRoot(tab, kroot) && WindowMapped(m0, kroot, n)
    ensures WindowMapped(m1, kroot, n)
  {
    hide Entry, Present;
    forall j: nat | j < SLOT_PAGES ensures WindowPage(m1, kroot, n, j) {
      HeapVpnIs(j);
      assert WindowPage(m0, kroot, n, j);
    }
  }

  // Heap room for the VMA blocks of some areas: one header and one VMA each.
  const VMA_ROOM: nat := SIZEOF_VMA + HEADER_SIZE

  ghost predicate RoomFor(bs: seq<Block>, areas: nat) { HasRoom(bs, areas * VMA_ROOM) }

  lemma RoomNext(bs: seq<Block>, areas: nat)
    requires RoomFor(bs, areas) && areas > 0
    ensures Fits(bs, SIZEOF_VMA)
    ensures RoomFor(AllocAt(bs, FirstFit(bs, SIZEOF_VMA, 0), SIZEOF_VMA), areas - 1)
  {
    RoomLeft(bs, SIZEOF_VMA, areas * VMA_ROOM);
    assert areas * VMA_ROOM - SIZEOF_VMA - HEADER_SIZE == (areas - 1) * VMA_ROOM;
  }

  // ---- mm_map_range ----

  function FirstPage(va: nat): nat { va / PAGE_SIZE }

  // Pages of [va, va + size) after rounding outwards.
  function PageSpan(va: nat, size: nat): (n: nat)
    ensures size > 0 ==> n > 0
  {
    (va + size + PAGE_SIZE - 1) / PAGE_SIZE - va / PAGE_SIZE
  }

  // These are exactly the pages that hold a byte of the range.
  lemma SpanIsExact(va: nat, size: nat, v: nat)
    requires size > 0
    ensures FirstPage(va) <= v < FirstPage(va) + PageSpan(va, size) <==>
              exists a: nat {:trigger a / PAGE_SIZE} :: va <= a < va + size && a / PAGE_SIZE == v
  {
    var a := if v == va / PAGE_SIZE then va else v * PAGE_SIZE;
    if FirstPage(va) <= v < FirstPage(va) + PageSpan(va, size) {
      assert va <= a < va + size && a / PAGE_SIZE == v;
    }
  }

  lemma SpanFits(va: nat, size: nat)
    requires size > 0 && va + size <= USER_LIMIT * PAGE_SIZE
    ensures FirstPage(va) + PageSpan(va, size) <= USER_LIMIT
  {
  }

  // User pages of root outside the range read as before, and those mapped have the rights they had.
  ghost predicate KeptOutside(m0: Memory, m1: Memory, root: nat, start: nat, n: nat) {
    forall v: nat {:trigger Entry(m1, root, v)} :: v < USER_LIMIT && !(start <= v < start + n) ==>
      && Entry(m1, root, v) == Entry(m0, root, v)
      && (Present(Entry(m0, root, v)) ==> UpperRights(m1, root, v) == UpperRights(m0, root, v))
  }

  // Pages of root that are new lie in the range.
  ghost predicate NewPagesIn(p0: Pages, p1: Pages, root: nat, start: nat, n: nat) {
    forall f :: f in p1 && f !in p0 && p1[f].root == root ==> start <= p1[f].vpn < start + n
  }

  // A space stays as it is while another space or the kernel changes.
  lemma {:induction false} SpaceOkKept(m0: Memory, t0: Tables, p0: Pages, m1: Memory, t1: Tables, p1: Pages, kroot: nat,
                                       r: nat, root: nat, vmas: seq<Vma>)
    requires Confined(m0, t0, p0, m1, t1, p1, kroot, r) && SpaceOk(m0, t0, kroot, root, vmas) && root != r
    ensures SpaceOk(m1, t1, kroot, root, vmas)
  {
    hide Entry, UpperRights, AsAsked, Confined;
    forall v: nat | v < USER_LIMIT ensures MappedIffListed(m1, root, vmas, v) {
      assert MappedIffListed(m0, root, vmas, v);
      ConfinedEntry(m0, t0, p0, m1, t1, p1, kroot, r, root, v);
    }
    ConfinedEntry(m0, t0, p0, m1, t1, p1, kroot, r, root, 0);
  }

  lemma {:induction false} CoveredKept(m0: Memory, t0: Tables, p0: Pages, m1: Memory, t1: Tables, p1: Pages, kroot: nat,
                                       r: nat, root: nat, vmas: seq<Vma>)
    requires Confined(m0, t0, p0, m1, t1, p1, kroot, r) && Covered(m0, t0, kroot, root, vmas) && root != r
    ensures Covered(m1, t1, kroot, root, vmas)
  {
    hide Entry, UpperRights, AsAsked, Confined;
    forall v: nat | v < USER_LIMIT ensures CoveredAt(m1, root, vmas, v) {
      assert CoveredAt(m0, root, vmas, v);
      ConfinedEntry(m0, t0, p0, m1, t1, p1, kroot, r, root, v);
    }
    ConfinedEntry(m0, t0, p0, m1, t1, p1, kroot, r, root, 0);
  }

  // And when another space is gone.
  lemma {:induction false} SpacesOutlive(m0: Memory, t0: Tables, p0: Pages, m1: Memory, t1: Tables, p1: Pages,
                                         kroot: nat, r: nat, root: nat, vmas: seq<Vma>)
    requires Dropped(m0, t0, p0, m1, t1, p1, kroot, r) && root != r && root in t0 && t0[root].root == root
    ensures SpaceOk(m0, t0, kroot, root, vmas) ==> SpaceOk(m1, t1, kroot, root, vmas)
    ensures Covered(m0, t0, kroot, root, vmas) ==> Covered(m1, t1, kroot, root, vmas)
  {
    hide Entry, UpperRights, AsAsked, Dropped, Idx;
    UserIsNotHeap();
    if IsRoot(t0, root) && root != kroot {
      DroppedEntry(m0, t0, p0, m1, t1, p1, kroot, r, root, 0);
      forall v: nat | v < USER_LIMIT
        ensures Entry(m1, root, v) == Entry(m0, root, v) && UpperRights(m1, root, v) == UpperRights(m0, root, v)
      {
        DroppedEntry(m0, t0, p0, m1, t1, p1, kroot, r, root, v);
      }
      if SpaceOk(m0, t0, kroot, root, vmas) {
        forall v: nat | v < USER_LIMIT ensures MappedIffListed(m1, root, vmas, v) {
          assert MappedIffListed(m0, root, vmas, v);
        }
      }
      if Covered(m0, t0, kroot, root, vmas) {
        forall v: nat | v < USER_LIMIT ensures CoveredAt(m1, root, vmas, v) {
          assert CoveredAt(m0, root, vmas, v);
        }
      }
    }
  }

  lemma {:induction false} ListedIsMapped(mem: Memory, tab: Tables, kroot: nat, root: nat, vmas: seq<Vma>, k: nat,
                                          v: nat)
    requires SpaceOk(mem, tab, kroot, root, vmas) && k < |vmas| && Covers(vmas[k], v)
    ensures v < USER_LIMIT && Present(Entry(mem, root, v))
  {
    hide Entry, UpperRights, AsAsked;
    assert MappedIffListed(mem, root, vmas, v);
  }

  // The range just mapped becomes one more area, disjoint from the others.
  lemma {:induction false} SpaceOkGrows(m0: Memory, t0: Tables, m1: Memory, t1: Tables, p0: Pages, kroot: nat,
                                        root: nat, vmas: seq<Vma>, start: nat, n: nat, vmFlags: nat)
    requires SpaceOk(m0, t0, kroot, root, vmas) && IsRoot(t1, root) && n > 0 && start + n <= USER_LIMIT
    requires RangeUnmapped(m0, root, start, n) && AllOutsideKept(m0, m1, t0, root, start, n)
    requires RangeMapped(m1, p0, root, PteFlags(vmFlags), start, n) && UppersKept(m0, m1, root, VmaRights(vmFlags))
    ensures SpaceOk(m1, t1, kroot, root, vmas + [Vma(start, start + n, vmFlags)])
  {
    hide Entry, UpperRights, RightsOf, PteFlags;
    AllWritableNext(vmas, Vma(start, start + n, vmFlags));
    var vmas' := vmas + [Vma(start, start + n, vmFlags)];
    forall k | 0 <= k < |vmas| ensures vmas[k].end <= start || start + n <= vmas[k].start {
      var v := if vmas[k].start >= start then vmas[k].start else start;
      if v < vmas[k].end && v < start + n {
        ListedIsMapped(m0, t0, kroot, root, vmas, k, v);
      }
    }
    forall v: nat | v < USER_LIMIT ensures MappedIffListed(m1, root, vmas', v) {
      assert MappedIffListed(m0, root, vmas, v) && OutsideKept(m0, m1, root, start, n, root, v);
      assert UpperAllows(m0, m1, VmaRights(vmFlags), root, v);
      if start <= v < start + n {
        assert MappedNew(m1, p0, root, PteFlags(vmFlags), v);
        LeafRights(FrameOf(Entry(m1, root, v)), PteFlags(vmFlags));
        PteFlagsRights(vmFlags);
        assert Covers(vmas'[|vmas|], v);
      } else {
        ListedElsewhere(vmas, Vma(start, start + n, vmFlags), v);
      }
    }
  }

  lemma ListedElsewhere(vmas: seq<Vma>, a: Vma, v: nat)
    requires !Covers(a, v)
    ensures InVmas(vmas + [a], v) <==> InVmas(vmas, v)
  {
    if InVmas(vmas, v) {
      var k :| 0 <= k < |vmas| && Covers(vmas[k], v);
      assert Covers((vmas + [a])[k], v);
    }
  }

  lemma {:induction false} UnmappedKept(m0: Memory, t0: Tables, p0: Pages, m1: Memory, t1: Tables, p1: Pages,
                                        kroot: nat, root: nat, start: nat, n: nat)
    requires Confined(m0, t0, p0, m1, t1, p1, kroot, kroot) && IsRoot(t0, root) && root != kroot
    ensures KeptOutside(m0, m1, root, 0, 0)
    ensures forall v: nat :: v < USER_LIMIT ==> UpperRights(m1, root, v) == UpperRights(m0, root, v)
    ensures RangeUnmapped(m0, root, start, n) && start + n <= USER_LIMIT ==> RangeUnmapped(m1, root, start, n)
  {
    hide Entry, UpperRights, Confined;
    forall v: nat | v < USER_LIMIT
      ensures Entry(m1, root, v) == Entry(m0, root, v) && UpperRights(m1, root, v) == UpperRights(m0, root, v)
    {
      ConfinedEntry(m0, t0, p0, m1, t1, p1, kroot, kroot, root, v);
    }
  }

  // The heap's own pages and slot are not touched by a user mapping.
  lemma {:induction false} HeapKept(m0: Memory, t0: Tables, m1: Memory, t1: Tables, kroot: nat, root: nat, start: nat,
                                    n: nat, count: nat)
    requires Structure(m0, t0, m1, t1, root) && AllOutsideKept(m0, m1, t0, root, start, n) && root != kroot
              && IsRoot(t0, kroot)
    requires WindowMapped(m0, kroot, count) && SlotReady(m0, t0, kroot, HEAP_SLOT)
    ensures WindowMapped(m1, kroot, count) && SlotReady(m1, t1, kroot, HEAP_SLOT)
  {
    hide Entry, Present, Structure;
    forall j: nat | j < SLOT_PAGES ensures WindowPage(m1, kroot, count, j) {
      HeapVpnIs(j);
      assert WindowPage(m0, kroot, count, j);
      assert OutsideKept(m0, m1, root, start, n, kroot, HeapVpn(j));
    }
    HeapVpnIs(0);
    StructureParts(m0, t0, m1, t1, root);
    MayMapKept(m0, t0, m1, t1, kroot, root, kroot, HeapVpn(0));
  }

  lemma {:induction false} StructureParts(m0: Memory, t0: Tables, m1: Memory, t1: Tables, root: nat)
    requires Structure(m0, t0, m1, t1, root)
    ensures TabGrows(t0, t1, root) && WalksKept(m0, m1, t0) && |m1| == |m0|
  {
  }

  // MapAll between heap operations.
  method MapUser(k: KernelHeap, root: nat, start: nat, n: nat, flags: nat) returns (ok: bool)
    requires k.Valid() && IsRoot(k.m.tab, root) && root != k.m.kroot
    requires n > 0 && start + n <= USER_LIMIT && flags < PAGE_SIZE && flags % 2 == 1
    requires RangeUnmapped(k.m.mem, root, start, n)
    modifies k.m`mem, k.m`tab, k.m`stray, k.m`failures, k.m`pages, k.m.pmm, k.m.pmm.bitmap
    ensures k.Valid() && IsRoot(k.m.tab, root) && old(k.m.stray) <= k.m.stray
    ensures Confined(old(k.m.mem), old(k.m.tab), old(k.m.pages), k.m.mem, k.m.tab, k.m.pages, k.m.kroot, root)
    ensures AllOutsideKept(old(k.m.mem), k.m.mem, old(k.m.tab), root, start, n)
    ensures PagesGrowIn(old(k.m.pages), k.m.pages, root, start, start + n)
    ensures OnlySpaceGrew(old(k.m.tab), old(k.m.pages), k.m.tab, k.m.pages, root)
    ensures Losses(old(k.m.stray), old(k.m.failures), k.m.stray, k.m.failures)
    ensures old(k.m.pmm.freePages) >= NeedBound(n) ==>
              ok && k.m.stray == old(k.m.stray) && old(k.m.pmm.freePages) - k.m.pmm.freePages <= NeedBound(n)
    ensures LostLast(old(k.m.failures), old(k.m.pmm.freePages), k.m.failures, k.m.pmm.freePages, ok)
    ensures ok ==> k.m.pmm.freePages <= old(k.m.pmm.freePages)
    ensures ok && k.m.stray == old(k.m.stray) ==> RangeMapped(k.m.mem, old(k.m.pages), root, flags, start, n)
    ensures !ok ==> RangeUnmapped(k.m.mem, root, start, n) && k.m.pages == old(k.m.pages)
    ensures MappedOrZero(k.m.mem, root, start, n, RightsOf(flags))
    ensures UppersKept(old(k.m.mem), k.m.mem, root, RightsOf(flags))
  {
    hide TableWf, PagesWf, Entry, Tiles, WindowMapped, View, IntrusiveList.IsRing, Up, Idx, Pmm.CountFree, Pmm.BitsOf,
      Confined, AllOutsideKept, PagesGrowIn, Structure, RangeMapped, RangeUnmapped, Need, NeedBound, SlotReady,
      OnlySpaceGrew, Losses, MappedOrZero, UppersKept, RightsOf, TablesAllow;
    ghost var m0, t0, p0, kroot := k.m.mem, k.m.tab, k.m.pages, k.m.kroot;
    k.m.KernelIsRoot();
    NeedIsBounded(m0, root, start, n);
    ok := MapAll(k.m, root, start, n, flags);
    LossesNone(old(k.m.stray), old(k.m.failures), k.m.stray, k.m.failures);
    StructureParts(m0, t0, k.m.mem, k.m.tab, root);
    UppersAfter(m0, t0, k.m.mem, k.m.tab, root, RightsOf(flags));
    HeapKept(m0, t0, k.m.mem, k.m.tab, kroot, root, start, n, k.PageCount());
    MappingIsConfined(m0, t0, p0, k.m.mem, k.m.tab, k.m.pages, kroot, root, start, n);
    OwnGrowth(t0, p0, k.m.tab, k.m.pages, root, start, n);
  }

  lemma {:induction false} OwnGrowth(t0: Tables, p0: Pages, t1: Tables, p1: Pages, root: nat, start: nat, n: nat)
    requires TabGrows(t0, t1, root) && PagesGrowIn(p0, p1, root, start, start + n)
    ensures OnlySpaceGrew(t0, p0, t1, p1, root)
  {
  }

  // The block of a new VMA is one that nobody had. When the call fails after linking the VMA, its
  // block is released but stays linked.
  ghost predicate VmaLinked(before: seq<nat>, after: seq<nat>, bs0: seq<Block>, mid: seq<Block>, ps: seq<nat>) {
    if after == before then ps == []
    else
      && |after| == |before| + 1 && after[..|before|] == before
      && NewlyUsed(bs0, mid, after[|before|], SIZEOF_VMA) && (ps == [] || ps == [after[|before|]])
  }

  // mm_map_range. `taken` counts the frames the kernel heap took for the VMA's block, `mid` is the
  // heap after kmalloc, `ps` lists the kfree calls that follow.
  method MapRange(k: KernelHeap, mm: Mm, va: nat, size: nat, vmFlags: nat)
    returns (r: Status, ghost taken: nat, ghost mid: seq<Block>, ghost ps: seq<nat>)
    requires k.Valid() && IsRoot(k.m.tab, mm.root) && mm.root != k.m.kroot
    requires size > 0 ==> va + size <= USER_LIMIT * PAGE_SIZE
    requires size > 0 ==> RangeUnmapped(k.m.mem, mm.root, FirstPage(va), PageSpan(va, size))
    modifies k`size, k`isFree, k`order, k`top, k.nodes, k.m`mem, k.m`tab, k.m`stray, k.m`failures, k.m`pages, k.m.pmm,
        k.m.pmm.bitmap
    modifies mm`vmas, mm`mapCount, mm`blocks
    ensures r != Halted ==> k.Valid() && old(k.m.stray) <= k.m.stray
    ensures Confined(old(k.m.mem), old(k.m.tab), old(k.m.pages), k.m.mem, k.m.tab, k.m.pages, k.m.kroot, mm.root)
    ensures r != Halted ==> KeptOutside(old(k.m.mem), k.m.mem, mm.root, FirstPage(va), PageSpan(va, size))
    ensures r != Halted ==> NewPagesIn(old(k.m.pages), k.m.pages, mm.root, FirstPage(va), PageSpan(va, size))
    // a page of the range is left unmapped, or mapped as a user page, writable exactly for VM_WRITE
    ensures r != Halted && size > 0 ==>
              MappedOrZero(k.m.mem, mm.root, FirstPage(va), PageSpan(va, size), VmaRights(vmFlags))
    // what its four entries allow together, and what those above the other pages allow
    ensures r != Halted && size > 0 ==> RangeRights(old(k.m.mem), k.m.mem, mm.root, FirstPage(va), PageSpan(va, size),
                                                    VmaRights(vmFlags))
    ensures r != Halted ==> UppersKept(old(k.m.mem), k.m.mem, mm.root, VmaRights(vmFlags))
    ensures r != Halted && mm.vmas == old(mm.vmas) ==> UppersKept(old(k.m.mem), k.m.mem, mm.root, ALL_RIGHTS)
    // the area is listed, even when the call fails at a page
    ensures r == Done ==> mm.vmas == old(mm.vmas) + [Vma(FirstPage(va), FirstPage(va) + PageSpan(va, size), vmFlags)]
                          && mm.mapCount == old(mm.mapCount) + 1
    ensures r != Halted ==> VmaLinked(old(mm.blocks), mm.blocks, old(k.Blocks()), mid, ps)
    ensures r == Done ==> ps == [] && |mm.blocks| == |old(mm.blocks)| + 1
    ensures r == Failed ==> |ps| == |mm.blocks| - |old(mm.blocks)|
    ensures r != Halted ==> OwnFrees(old(k.Blocks()), mid, ps, k.Blocks(), {})
    ensures Losses(old(k.m.stray), old(k.m.failures), k.m.stray, k.m.failures)
    ensures r != Halted ==>
              LostLast(old(k.m.failures), old(k.m.pmm.freePages), k.m.failures, k.m.pmm.freePages, r == Done)
    ensures r == Done ==> k.m.pmm.freePages <= old(k.m.pmm.freePages)
    ensures |mm.vmas| - |old(mm.vmas)| == |mm.blocks| - |old(mm.blocks)|
    ensures mm.vmas == old(mm.vmas)
            || mm.vmas == old(mm.vmas) + [Vma(FirstPage(va), FirstPage(va) + PageSpan(va, size), vmFlags)]
    // success with no frame lost: exactly the pages of the range are mapped, each to a new frame
    ensures r == Done && k.m.stray == old(k.m.stray) ==>
              RangeMapped(k.m.mem, old(k.m.pages), mm.root, PteFlags(vmFlags), FirstPage(va), PageSpan(va, size))
    ensures old(mm.Ok(k.m)) && r == Done && k.m.stray == old(k.m.stray) ==> mm.Ok(k.m)
    // whatever happens, what is mapped lies in the listed areas
    ensures old(Covered(k.m.mem, k.m.tab, k.m.kroot, mm.root, mm.vmas)) && r != Halted
            && (size > 0 ==> ApartFrom(old(mm.vmas), FirstPage(va), PageSpan(va, size))) ==>
              Covered(k.m.mem, k.m.tab, k.m.kroot, mm.root, mm.vmas)
    // failure leaves none of the pages mapped
    ensures r == Failed && size > 0 ==> RangeUnmapped(k.m.mem, mm.root, FirstPage(va), PageSpan(va, size))
    // a fitting block costs no frame, a free last block at most four; the heap fails only when no
    // frame is left
    ensures size > 0 && Fits(old(k.Blocks()), SIZEOF_VMA) ==>
              && taken == 0 && r != Halted && k.top == old(k.top)
              && OnlySpaceGrew(old(k.m.tab), old(k.m.pages), k.m.tab, k.m.pages, mm.root)
              && (r == Done ==>
                    && k.Blocks() == AllocAt(old(k.Blocks()), FirstFit(old(k.Blocks()), SIZEOF_VMA, 0), SIZEOF_VMA)
                    && mm.blocks == old(mm.blocks) + [FittingPtr(old(k.Blocks()), SIZEOF_VMA)])
    ensures TailFree(old(k.Blocks())) && old(k.m.pmm.freePages) >= 4 ==> taken <= 4 && r != Halted
    ensures r == Halted ==> k.m.pmm.freePages == 0
    // enough frames behind what the heap took: success, nothing lost
    ensures size == 0 ==>
              && r == Failed && taken == 0 && k.m.mem == old(k.m.mem) && mm.vmas == old(mm.vmas)
              && k.Blocks() == old(k.Blocks()) && k.top == old(k.top) && k.m.pmm.freePages == old(k.m.pmm.freePages)
              && k.m.stray == old(k.m.stray)
    ensures size > 0 && old(k.m.pmm.freePages) >= taken + NeedBound(PageSpan(va, size)) ==>
              r == Done && k.m.stray == old(k.m.stray)
              && k.m.pmm.freePages + taken + NeedBound(PageSpan(va, size)) >= old(k.m.pmm.freePages)
  {
    hide TableWf, PagesWf, Entry, KernelGrowth, Tiles, FreeAt, WindowMapped, View, IntrusiveList.IsRing, Up, Idx,
      Pmm.CountFree, Pmm.BitsOf, Confined, SpaceOk, AllOutsideKept, PagesGrowIn, RangeMapped, RangeUnmapped,
      NeedBound, SlotReady, PageSpan, KeptOutside, NewPagesIn, PteFlags, Covered, Fits, TailFree, TailServes, AllocAt,
      ApartFrom, MappedOrZero, FirstPage, HeapRuns.Kmalloc, OnlySpaceGrew, Machine.Valid, KernelHeap.Valid, Losses,
      InUse, UsedKept, OwnFrees, Tiled, HeapRuns.FreeListed, UpperRights, UppersKept, RangeRights, VmaRights;
    k.Parts();
    ghost var m0, t0, p0, kroot, bs0 := k.m.mem, k.m.tab, k.m.pages, k.m.kroot, k.Blocks();
    NoGrowth(t0, p0, mm.root);
    taken, mid, ps := 0, bs0, [];
    SmallSizes(bs0, k.m.pmm.freePages);
    NothingChanged(m0, t0, p0, kroot, mm.root, FirstPage(va), PageSpan(va, size));
    UppersSame(m0, m0, mm.root, VmaRights(vmFlags));
    UppersSame(m0, m0, mm.root, ALL_RIGHTS);
    LossesRefl(k.m.stray, k.m.failures);
    UsedRefl(bs0);
    NoFrees(bs0, bs0);
    if size == 0 {
      return Failed, 0, mid, ps;
    }
    SpanFits(va, size);
    var start, n := FirstPage(va), PageSpan(va, size);
    var p, _, at := k.Kmalloc(SIZEOF_VMA);
    taken := old(k.m.pmm.freePages) - k.m.pmm.freePages;
    ghost var m1, t1, p1, s1, n1 := k.m.mem, k.m.tab, k.m.pages, k.m.stray, k.m.failures;
    GrowthIsConfined(m0, t0, p0, m1, t1, p1, kroot, mm.root);
    GrowthIsConfined(m0, t0, p0, m1, t1, p1, kroot, kroot);
    UnmappedKept(m0, t0, p0, m1, t1, p1, kroot, mm.root, start, n);
    KernelAdds(m0, t0, p0, m1, t1, p1, kroot, mm.root, start, n);
    NeedIsPositive(n);
    if p == Fault {
      return Halted, taken, mid, ps;
    }
    k.Parts();
    mid := k.Blocks();
    NoFrees(bs0, mid);
    LossesNone(old(k.m.stray), old(k.m.failures), s1, n1);
    UnmappedIsZero(m1, mm.root, start, n, VmaRights(vmFlags));
    UppersSame(m0, m1, mm.root, VmaRights(vmFlags));
    UppersSame(m0, m1, mm.root, ALL_RIGHTS);
    RightsOfRange(m0, m1, mm.root, start, n, VmaRights(vmFlags));
    ConfinedRoot(m0, t0, p0, m1, t1, p1, kroot, kroot, mm.root);
    AreaCovered(m0, t0, m1, t1, kroot, mm.root, mm.vmas, start, n, vmFlags);
    if p == Null {
      return Failed, taken, mid, ps;
    }
    SpaceOkStays(m0, t0, p0, m1, t1, p1, kroot, mm.root, mm.vmas);
    r := MapArea(k, mm, start, n, vmFlags, p.address, at);
    k.Parts();
    LossesTrans(old(k.m.stray), old(k.m.failures), s1, n1, k.m.stray, k.m.failures);
    if r == Failed {
      ps := [p.address];
      OneFree(bs0, mid, p.address, k.Blocks());
    }
    ConfinedTrans(m0, t0, p0, m1, t1, p1, k.m.mem, k.m.tab, k.m.pages, kroot, mm.root);
    AfterMapping(m0, p0, m1, t1, p1, k.m.mem, k.m.pages, kroot, mm.root, start, n, PteFlags(vmFlags),
                 VmaRights(vmFlags));
    RightsOfRange(m0, k.m.mem, mm.root, start, n, VmaRights(vmFlags));
    ConfinedRoot(m0, t0, p0, k.m.mem, k.m.tab, k.m.pages, kroot, mm.root, mm.root);
    AreaCovered(m0, t0, k.m.mem, k.m.tab, kroot, mm.root, old(mm.vmas), start, n, vmFlags);
  }

  lemma {:induction false} NoGrowth(t: Tables, p: Pages, root: nat)
    ensures OnlySpaceGrew(t, p, t, p, root)
  {
  }

  lemma {:induction false} AreaCovered(m0: Memory, t0: Tables, m2: Memory, t2: Tables, kroot: nat, root: nat,
                                       vmas: seq<Vma>, start: nat, n: nat, vmFlags: nat)
    requires IsRoot(t2, root) && n > 0 && start + n <= USER_LIMIT
    requires KeptOutside(m0, m2, root, start, n) && MappedOrZero(m2, root, start, n, VmaRights(vmFlags))
    requires UppersKept(m0, m2, root, VmaRights(vmFlags))
    ensures Covered(m0, t0, kroot, root, vmas) && ApartFrom(vmas, start, n) ==>
              && Covered(m2, t2, kroot, root, vmas + [Vma(start, start + n, vmFlags)])
              && (RangeUnmapped(m2, root, start, n) && UppersKept(m0, m2, root, ALL_RIGHTS) ==>
                    Covered(m2, t2, kroot, root, vmas))
  {
    if Covered(m0, t0, kroot, root, vmas) && ApartFrom(vmas, start, n) {
      CoveredGrows(m0, t0, m2, t2, kroot, root, vmas, start, n, vmFlags);
    }
  }

  // The rest of mm_map_range, once the VMA's block is allocated.
  method MapArea(k: KernelHeap, mm: Mm, start: nat, n: nat, vmFlags: nat, block: nat, ghost at: nat) returns (r: Status)
    requires k.Valid() && IsRoot(k.m.tab, mm.root) && mm.root != k.m.kroot && n > 0 && start + n <= USER_LIMIT
    requires RangeUnmapped(k.m.mem, mm.root, start, n)
    requires at < |k.order| && block == k.order[at] + HEADER_SIZE
    modifies k`size, k`isFree, k`order, k.nodes, k.m`mem, k.m`tab, k.m`stray, k.m`failures, k.m`pages, k.m.pmm,
        k.m.pmm.bitmap
    modifies mm`vmas, mm`mapCount, mm`blocks
    ensures k.Valid() && old(k.m.stray) <= k.m.stray && r != Halted
    ensures Confined(old(k.m.mem), old(k.m.tab), old(k.m.pages), k.m.mem, k.m.tab, k.m.pages, k.m.kroot, mm.root)
    ensures IsRoot(old(k.m.tab), mm.root)
    ensures AllOutsideKept(old(k.m.mem), k.m.mem, old(k.m.tab), mm.root, start, n)
    ensures PagesGrowIn(old(k.m.pages), k.m.pages, mm.root, start, start + n)
    ensures OnlySpaceGrew(old(k.m.tab), old(k.m.pages), k.m.tab, k.m.pages, mm.root)
    ensures old(k.m.pmm.freePages) >= NeedBound(n) ==>
              r == Done && k.m.stray == old(k.m.stray) && old(k.m.pmm.freePages) - k.m.pmm.freePages <= NeedBound(n)
    ensures mm.vmas == old(mm.vmas) + [Vma(start, start + n, vmFlags)] && mm.mapCount == old(mm.mapCount) + 1
    ensures mm.blocks == old(mm.blocks) + [block]
    ensures k.Blocks() == if r == Done then old(k.Blocks()) else HeapRuns.FreeListed(old(k.Blocks()), block)
    ensures LostLast(old(k.m.failures), old(k.m.pmm.freePages), k.m.failures, k.m.pmm.freePages, r == Done)
    ensures r == Done ==> k.m.pmm.freePages <= old(k.m.pmm.freePages)
    ensures Losses(old(k.m.stray), old(k.m.failures), k.m.stray, k.m.failures)
    ensures r == Done && k.m.stray == old(k.m.stray) ==>
              RangeMapped(k.m.mem, old(k.m.pages), mm.root, PteFlags(vmFlags), start, n)
    ensures old(mm.Ok(k.m)) && r == Done && k.m.stray == old(k.m.stray) ==> mm.Ok(k.m)
    ensures r == Failed ==> RangeUnmapped(k.m.mem, mm.root, start, n)
    ensures MappedOrZero(k.m.mem, mm.root, start, n, VmaRights(vmFlags))
    ensures UppersKept(old(k.m.mem), k.m.mem, mm.root, VmaRights(vmFlags))
  {
    hide TableWf, PagesWf, Entry, Tiles, FreeAt, WindowMapped, View, IntrusiveList.IsRing, Up, Idx, Pmm.CountFree,
      Pmm.BitsOf, Confined, SpaceOk, AllOutsideKept, PagesGrowIn, RangeMapped, RangeUnmapped, NeedBound, SlotReady,
      PteFlags, OnlySpaceGrew, Losses, HeapRuns.FreeListed, MappedOrZero, UppersKept, RightsOf, VmaRights;
    ghost var m1, t1, p1 := k.m.mem, k.m.tab, k.m.pages;
    mm.vmas := mm.vmas + [Vma(start, start + n, vmFlags)];
    mm.blocks := mm.blocks + [block];
    mm.mapCount := mm.mapCount + 1;
    PteFlagsRights(vmFlags);
    var ok := MapUser(k, mm.root, start, n, PteFlags(vmFlags));
    if !ok {
      k.Release(block, at);
      return Failed;
    }
    if old(mm.Ok(k.m)) && k.m.stray == old(k.m.stray) {
      SpaceOkGrows(m1, t1, k.m.mem, k.m.tab, p1, k.m.kroot, mm.root, old(mm.vmas), start, n, vmFlags);
    }
    return Done;
  }

  lemma {:induction false} ConfinedRoot(m0: Memory, t0: Tables, p0: Pages, m1: Memory, t1: Tables, p1: Pages,
                                        kroot: nat, r: nat, s: nat)
    requires Confined(m0, t0, p0, m1, t1, p1, kroot, r) && IsRoot(t0, s)
    ensures IsRoot(t1, s)
  {
  }

  lemma {:induction false} SpaceOkStays(m0: Memory, t0: Tables, p0: Pages, m1: Memory, t1: Tables, p1: Pages,
                                        kroot: nat, root: nat, vmas: seq<Vma>)
    requires Confined(m0, t0, p0, m1, t1, p1, kroot, kroot)
    ensures SpaceOk(m0, t0, kroot, root, vmas) ==> SpaceOk(m1, t1, kroot, root, vmas)
  {
    hide Confined;
    if SpaceOk(m0, t0, kroot, root, vmas) {
      SpaceOkKept(m0, t0, p0, m1, t1, p1, kroot, kroot, root, vmas);
    }
  }

  lemma {:induction false} NothingChanged(m0: Memory, t0: Tables, p0: Pages, kroot: nat, root: nat, start: nat, n: nat)
    ensures Confined(m0, t0, p0, m0, t0, p0, kroot, root) && KeptOutside(m0, m0, root, start, n)
    ensures NewPagesIn(p0, p0, root, start, n)
  {
  }

  lemma {:induction false} SpaceRoot(mem: Memory, tab: Tables, kroot: nat, root: nat, vmas: seq<Vma>)
    requires SpaceOk(mem, tab, kroot, root, vmas)
    ensures IsRoot(tab, root) && root != kroot
  {
  }

  lemma NeedIsPositive(n: nat)
    requires n > 0
    ensures NeedBound(n) > 0
  {
  }

  lemma {:induction false} KernelAdds(m0: Memory, t0: Tables, p0: Pages, m1: Memory, t1: Tables, p1: Pages, kroot: nat,
                                      root: nat, start: nat, n: nat)
    requires KernelGrowth(m0, t0, p0, m1, t1, p1, kroot, HEAP_SLOT) && root != kroot
    requires KeptOutside(m0, m1, root, 0, 0)
    ensures NewPagesIn(p0, p1, root, start, n) && KeptOutside(m0, m1, root, start, n)
    ensures forall f :: f in p0 ==> f in p1
    ensures forall f :: f in p1 && f !in p0 ==> p1[f].root != root
  {
    hide Entry;
  }

  lemma {:induction false} AfterMapping(m0: Memory, p0: Pages, m1: Memory, t1: Tables, p1: Pages, m2: Memory, p2: Pages,
                                        kroot: nat, root: nat, start: nat, n: nat, flags: nat, fl: Rights)
    requires KeptOutside(m0, m1, root, 0, 0) && AllOutsideKept(m1, m2, t1, root, start, n) && IsRoot(t1, root)
    requires PagesGrowIn(p1, p2, root, start, start + n) && UppersKept(m0, m1, root, fl) && UppersKept(m1, m2, root, fl)
    requires (forall f :: f in p0 ==> f in p1) && (forall f :: f in p1 && f !in p0 ==> p1[f].root != root)
    ensures KeptOutside(m0, m2, root, start, n) && NewPagesIn(p0, p2, root, start, n) && UppersKept(m0, m2, root, fl)
    ensures RangeMapped(m2, p1, root, flags, start, n) ==> RangeMapped(m2, p0, root, flags, start, n)
  {
    hide Entry, FrameOf, UpperRights, Present;
    forall v: nat | v < USER_LIMIT ensures Entry(m1, root, v) == Entry(m0, root, v) {
    }
    UppersTrans(m0, m1, m2, root, fl);
    forall v: nat | v < USER_LIMIT && !(start <= v < start + n)
      ensures Entry(m2, root, v) == Entry(m0, root, v)
              && (Present(Entry(m0, root, v)) ==> UpperRights(m2, root, v) == UpperRights(m0, root, v))
    {
      assert OutsideKept(m1, m2, root, start, n, root, v);
    }
    if RangeMapped(m2, p1, root, flags, start, n) {
      forall u: nat | start <= u < start + n ensures MappedNew(m2, p0, root, flags, u) {
        assert MappedNew(m2, p1, root, flags, u);
      }
    }
  }

  // ---- mm_free ----

  // mm_free on the page tables of a space: `log` lists the pmm_free_page calls. (The blocks of
  // the VMAs and of the mm_struct go back through kfree, which touches no frame.)
  method FreeSpace(m: Machine, root: nat) returns (ghost log: seq<nat>)
    requires m.Valid() && IsRoot(m.tab, root) && root != m.kroot
    modifies m`tab, m`pages, m.pmm, m.pmm.bitmap
    ensures m.Valid()
    // every table and page of the space is released exactly once, and nothing else is
    ensures forall f: nat :: f in log <==> Belongs(old(m.tab), old(m.pages), f, root)
    ensures forall i, j :: 0 <= i < j < |log| ==> log[i] != log[j]
    ensures m.tab == WithoutSpace(old(m.tab), root) && m.pages == PagesWithout(old(m.pages), root)
    ensures m.pmm.freePages == old(m.pmm.freePages) + |log|
    ensures Released(old(m.pmm.Bits()), m.pmm.Bits(), log)
    ensures Stale(m.mem, m.pmm.Bits(), m.kroot, root)
  {
    hide TableWf, PagesWf, Entry, Up, Idx, First, Under, Pmm.CountFree, Pmm.BitsOf, Pmm.BusyBelow, Accounted,
      WithoutSpace, PagesWithout;
    ghost var t0, p0, bits0 := m.tab, m.pages, m.pmm.Bits();
    Linked(m.mem, t0, m.kroot, root);
    BusySpace(m.mem, t0, p0, m.stray, m.kroot, root, bits0);
    log := FreeRecursive(m, root, 4);
    forall f: nat ensures f in log <==> f != root && Belongs(t0, p0, f, root) {
      UnderRoot(m.mem, t0, p0, m.kroot, root, f);
    }
    UnderRoot(m.mem, t0, p0, m.kroot, root, root);
    RootBusy(bits0, t0, p0, m.stray, root, m.pmm.Bits(), log);
    var r := m.pmm.FreePage(root);
    log := log + [root];
    AccountedWithout(bits0, t0, p0, m.stray, root, m.pmm.Bits(), log);
    ReleasedIsStale(m.mem, t0, p0, m.kroot, root, bits0, m.pmm.Bits(), log);
    DropSpace(m.mem, t0, m.kroot, root);
    PagesDropSpace(m.mem, t0, p0, m.kroot, root);
    m.tab := WithoutSpace(t0, root);
    m.pages := PagesWithout(p0, root);
  }

  lemma {:induction false} RootBusy(bits0: seq<bool>, t0: Tables, p0: Pages, s: set<nat>, root: nat, bits1: seq<bool>,
                                    log: seq<nat>)
    requires Accounted(bits0, t0, p0, s) && root in t0 && Released(bits0, bits1, log) && root !in log
    ensures root < |bits1| && bits1[root]
  {
  }

  // The accounts after every frame of the space was released.
  lemma {:induction false} AccountedWithout(bits0: seq<bool>, t0: Tables, p0: Pages, s: set<nat>, root: nat,
                                            bits1: seq<bool>, log: seq<nat>)
    requires Accounted(bits0, t0, p0, s) && Released(bits0, bits1, log)
    requires forall f: nat :: f in log <==> Belongs(t0, p0, f, root)
    ensures Accounted(bits1, WithoutSpace(t0, root), PagesWithout(p0, root), s)
  {
  }

  lemma {:induction false} BusySpace(mem: Memory, tab: Tables, pages: Pages, stray: set<nat>, kroot: nat, root: nat,
                                     bits: seq<bool>)
    requires TableWf(mem, tab, kroot) && PagesWf(mem, tab, pages, kroot) && Accounted(bits, tab, pages, stray)
    requires IsRoot(tab, root) && root != kroot
    ensures SpaceWf(mem, tab, pages, kroot)
    ensures BusyUnder(bits, tab, pages, root, 1, 0, 512)
  {
    hide TableWf, PagesWf, Under;
    forall f: nat | Under(tab, pages, f, root, 1, 0, 512) ensures f < |bits| && bits[f] {
      UnderRoot(mem, tab, pages, kroot, root, f);
    }
  }

  // mm_free: the VMA blocks, the page tables, the mm_struct's block. Afterwards nothing of the space
  // is left, and no other space has changed.
  method MmFree(k: KernelHeap, mm: Mm) returns (ghost log: seq<nat>)
    requires k.Valid() && IsRoot(k.m.tab, mm.root) && mm.root != k.m.kroot
    modifies k`size, k`isFree, k`order, k.nodes, k.m`tab, k.m`pages, k.m.pmm, k.m.pmm.bitmap
    ensures k.Valid()
    ensures forall f: nat :: f in log <==> Belongs(old(k.m.tab), old(k.m.pages), f, mm.root)
    ensures forall i, j :: 0 <= i < j < |log| ==> log[i] != log[j]
    ensures k.m.tab == WithoutSpace(old(k.m.tab), mm.root) && k.m.pages == PagesWithout(old(k.m.pages), mm.root)
    ensures k.m.pmm.freePages == old(k.m.pmm.freePages) + |log|
    ensures Released(old(k.m.pmm.Bits()), k.m.pmm.Bits(), log)
    ensures Dropped(k.m.mem, old(k.m.tab), old(k.m.pages), k.m.mem, k.m.tab, k.m.pages, k.m.kroot, mm.root)
    ensures k.Blocks() == HeapRuns.FreeEach(old(k.Blocks()), mm.Pointers())
    ensures Stale(k.m.mem, k.m.pmm.Bits(), k.m.kroot, mm.root)
  {
    hide TableWf, PagesWf, Entry, Tiles, View, IntrusiveList.IsRing, Up, Idx, Pmm.CountFree, Pmm.BitsOf, WindowMapped,
      Confined, Dropped, Belongs, Released, HeapRuns.FreeListed, Stale;
    LastPointer(k.Blocks(), mm.blocks, mm.block);
    FreeVmas(k, mm.blocks);
    ConfinedRefl(k.m.mem, k.m.tab, k.m.pages, k.m.kroot, mm.root);
    ConfinedThenDropped(k.m.mem, k.m.tab, k.m.pages, k.m.mem, k.m.tab, k.m.pages, k.m.kroot, mm.root);
    SlotOutlives(k.m.mem, k.m.tab, k.m.kroot, mm.root, HEAP_SLOT);
    log := FreeSpace(k.m, mm.root);
    k.FreePointer(mm.block);
  }

  lemma LastPointer(bs: seq<Block>, ps: seq<nat>, p: nat)
    ensures HeapRuns.FreeEach(bs, ps + [p]) == HeapRuns.FreeListed(HeapRuns.FreeEach(bs, ps), p)
  {
    assert (ps + [p])[..|ps|] == ps;
  }

  // A second mm_free of the same space, with nothing allocated since the first (what sys_fork does
  // after a failed mm_copy): the kfree calls are made again, and no frame is released.
  method MmFreeAgain(k: KernelHeap, mm: Mm)
    requires k.Valid() && Stale(k.m.mem, k.m.pmm.Bits(), k.m.kroot, mm.root)
    modifies k`size, k`isFree, k`order, k.nodes, k.m.pmm, k.m.pmm.bitmap
    ensures k.Valid()
    ensures k.m.pmm.Bits() == old(k.m.pmm.Bits()) && k.m.pmm.freePages == old(k.m.pmm.freePages)
    ensures k.Blocks() == HeapRuns.FreeEach(old(k.Blocks()), mm.Pointers())
  {
    hide TableWf, PagesWf, Entry, Tiles, View, IntrusiveList.IsRing, Up, Idx, Pmm.CountFree, Pmm.BitsOf, WindowMapped,
      Belongs, HeapRuns.FreeListed, SlotReady, Pmm.BusyBelow;
    ghost var tab, pages :| StaleAs(k.m.mem, k.m.pmm.Bits(), k.m.kroot, mm.root, tab, pages);
    LastPointer(k.Blocks(), mm.blocks, mm.block);
    FreeVmas(k, mm.blocks);
    Linked(k.m.mem, tab, k.m.kroot, mm.root);
    FreeAgain(k.m, mm.root, 4, tab, pages);
    RootBelongs(tab, pages, mm.root);
    var r := k.m.pmm.FreePage(mm.root);
    assert r == Pmm.DoubleFree;
    k.FreePointer(mm.block);
  }

  lemma {:induction false} RootBelongs(tab: Tables, pages: Pages, root: nat)
    requires root in tab && tab[root].root == root
    ensures Belongs(tab, pages, root, root)
  {
  }

  // The VMA loop of mm_free.
  method FreeVmas(k: KernelHeap, blocks: seq<nat>)
    requires k.Valid()
    modifies k`size, k`isFree, k`order, k.nodes
    ensures k.Valid() && k.Blocks() == HeapRuns.FreeEach(old(k.Blocks()), blocks)
  {
    hide TableWf, PagesWf, Tiles, View, IntrusiveList.IsRing, Pmm.CountFree, Pmm.BitsOf, WindowMapped, SlotReady,
      HeapRuns.FreeListed;
    for i := 0 to |blocks|
      invariant k.Valid() && k.Blocks() == HeapRuns.FreeEach(old(k.Blocks()), blocks[..i])
    {
      k.FreePointer(blocks[i]);
      assert blocks[..i + 1][..i] == blocks[..i];
    }
    assert blocks[..|blocks|] == blocks;
  }

  lemma {:induction false} SlotOutlives(mem: Memory, tab: Tables, kroot: nat, root: nat, i: nat)
    requires SlotReady(mem, tab, kroot, i)
    ensures SlotReady(mem, WithoutSpace(tab, root), kroot, i)
  {
    if !Present(Read(mem, kroot, i)) {
      forall r | IsRoot(WithoutSpace(tab, root), r) ensures r == kroot {
        assert IsRoot(tab, r);
      }
    }
  }

  // ---- mm_copy ----

  // memcpy of one frame and the rewritten entry of the child.
  ghost predicate CopyStep(m1: Memory, m2: Memory, tab: Tables, kroot: nat, r: nat, v: nat, f: nat) {
    && |m2| == |m1|
    && (forall g :: 0 <= g < |m1| && g != f && !(g in tab && tab[g].root == r) ==> m2[g] == m1[g])
    && FlatSame(m1, m2, tab, r, v) && TablesAllow(m1, m2, tab, ALL_RIGHTS)
  }

  ghost predicate FlatSame(m1: Memory, m2: Memory, tab: Tables, r: nat, v: nat) {
    forall s, u: nat :: IsRoot(tab, s) && u < VPN_LIMIT && !(s == r && u == v) ==> Entry(m2, s, u) == Entry(m1, s, u)
  }

  lemma {:induction false} ConfinedCopy(m0: Memory, t0: Tables, p0: Pages, m1: Memory, tab: Tables, pages: Pages,
                                        m2: Memory, kroot: nat, r: nat, v: nat, f: nat)
    requires Confined(m0, t0, p0, m1, tab, pages, kroot, r) && CopyStep(m1, m2, tab, kroot, r, v, f)
    requires f in pages && f !in p0 && f !in tab && v < USER_LIMIT
    requires kroot in tab && tab[kroot].root != r
    ensures Confined(m0, t0, p0, m2, tab, pages, kroot, r)
  {
    RightsCopy(m0, t0, p0, m1, tab, pages, m2, kroot, r);
    hide Entry, Idx, HeapPage, UpperRights, RightsConfined, TablesAllow;
    assert forall i: nat :: Read(m2, kroot, i) == Read(m1, kroot, i);
    forall i: nat | Present(Read(m0, kroot, i)) ensures Present(Read(m2, kroot, i)) {
      assert Present(Read(m1, kroot, i));
    }
    forall s, u: nat | IsRoot(t0, s) && u < VPN_LIMIT ensures EntryConfined(m0, m2, r, s, u) {
      assert IsRoot(tab, s);
      assert EntryConfined(m0, m1, r, s, u);
    }
  }

  lemma {:induction false} RightsCopy(m0: Memory, t0: Tables, p0: Pages, m1: Memory, tab: Tables, pages: Pages,
                                      m2: Memory, kroot: nat, r: nat)
    requires Confined(m0, t0, p0, m1, tab, pages, kroot, r) && TablesAllow(m1, m2, tab, ALL_RIGHTS)
    ensures RightsConfined(m0, t0, m2, kroot, r)
  {
    AllowsAll(m1, m2, tab, ALL_RIGHTS);
    hide Entry, Idx, UpperRights, OwnersConfined, MemConfined, SlotsKept, EntryConfined, TablesAllow;
    forall s, u: nat | IsRoot(t0, s) && u < VPN_LIMIT ensures UpperConfined(m0, m2, kroot, r, s, u) {
      RootStays(t0, p0, tab, pages, kroot, r, s);
      assert UpperConfined(m0, m1, kroot, r, s, u);
    }
  }

  // memcpy((void*)dst_pa, (void*)src_pa, PAGE_SIZE): only data moves.
  method CopyFrame(k: KernelHeap, f: nat, from: nat)
    requires k.Valid() && f in k.m.pages && f < |k.m.mem| && from < |k.m.mem|
    modifies k.m`mem
    ensures k.Valid() && k.m.mem == old(k.m.mem)[f := old(k.m.mem)[from]]
    ensures SameEntries(old(k.m.mem), k.m.mem, k.m.tab) && WalksKept(old(k.m.mem), k.m.mem, k.m.tab)
    ensures TablesAllow(old(k.m.mem), k.m.mem, k.m.tab, ALL_RIGHTS)
  {
    hide TableWf, PagesWf, Entry, Tiles, View, IntrusiveList.IsRing, Up, Idx, Pmm.CountFree, Pmm.BitsOf, WindowMapped,
      TableAt, SameEntries, WalksKept, TablesAllow;
    ghost var m1, kroot := k.m.mem, k.m.kroot;
    k.m.KernelIsRoot();
    k.m.mem := k.m.mem[f := k.m.mem[from]];
    DataWrite(m1, k.m.mem, k.m.tab, kroot);
    DataWalks(m1, k.m.mem, k.m.tab, kroot);
    SelfGrows(k.m.tab, kroot);
    PagesKept(m1, k.m.tab, k.m.mem, k.m.tab, k.m.pages, kroot, kroot);
    WindowSame(m1, k.m.mem, k.m.tab, kroot, k.PageCount());
  }

  lemma {:induction false} DataWalks(m1: Memory, m2: Memory, tab: Tables, kroot: nat)
    requires TableWf(m1, tab, kroot) && SameOnTables(m1, m2, tab)
    ensures WalksKept(m1, m2, tab) && TablesAllow(m1, m2, tab, ALL_RIGHTS)
  {
    hide TableWf, TableAt, UpperTo;
    forall r, v: nat, depth: nat | IsRoot(tab, r) && v < VPN_LIMIT ensures WalkKept(m1, m2, r, v, depth) {
      if depth <= 3 {
        WalkUnchanged(m1, m2, tab, kroot, r, v, depth);
      }
    }
    forall r, v: nat | IsRoot(tab, r) && v < VPN_LIMIT ensures UpperAllows(m1, m2, ALL_RIGHTS, r, v) {
      WalkUnchanged(m1, m2, tab, kroot, r, v, 3);
    }
  }

  lemma {:induction false} SelfGrows(tab: Tables, root: nat)
    ensures TabGrows(tab, tab, root)
  {
  }

  // *dst_pte = (dst_pa & MASK) | (*src_pte & 0xFFF)
  method RewriteEntry(k: KernelHeap, root: nat, v: nat, pt: nat, e: Word)
    requires k.Valid() && IsRoot(k.m.tab, root) && root != k.m.kroot && v < USER_LIMIT
              && TableAt(k.m.mem, root, v, 3) == Some(pt)
    requires Present(Entry(k.m.mem, root, v)) && Present(e) && FrameOf(e) == FrameOf(Entry(k.m.mem, root, v))
    modifies k.m`mem
    ensures k.Valid() && FlatUpdate(old(k.m.mem), k.m.mem, k.m.tab, k.m.kroot, root, v, e)
    ensures MemGrows(old(k.m.mem), k.m.mem, k.m.tab, k.m.tab, root)
    ensures TablesAllow(old(k.m.mem), k.m.mem, k.m.tab, ALL_RIGHTS)
  {
    hide TableWf, PagesWf, Entry, Tiles, View, IntrusiveList.IsRing, Up, Idx, Pmm.CountFree, Pmm.BitsOf, WindowMapped,
      TableAt, FlatUpdate, WalksKept, MemGrows, FrameOf, SlotReady, TablesAllow;
    ghost var m1, kroot := k.m.mem, k.m.kroot;
    k.m.KernelIsRoot();
    UserPageIsOwned(kroot, root, v);
    k.m.WritePte(root, v, pt, e);
    PagesRewritten(m1, k.m.mem, k.m.tab, k.m.pages, kroot, root, v, e);
    WindowRewritten(m1, k.m.mem, k.m.tab, kroot, root, v, e, k.PageCount());
  }

  lemma {:induction false} PagesRewritten(m1: Memory, m2: Memory, tab: Tables, pages: Pages, kroot: nat, root: nat,
                                          v: nat, e: Word)
    requires PagesWf(m1, tab, pages, kroot) && |m2| == |m1| && IsRoot(tab, root) && v < VPN_LIMIT
    requires FlatUpdate(m1, m2, tab, kroot, root, v, e) && v < USER_LIMIT && root != kroot
    requires Present(Entry(m1, root, v)) && Present(e) && FrameOf(e) == FrameOf(Entry(m1, root, v))
    ensures PagesWf(m2, tab, pages, kroot)
  {
    hide Entry, FrameOf, Present;
    forall f | f in pages ensures PageHeld(m2, tab, pages, kroot, f) {
      assert PageHeld(m1, tab, pages, kroot, f);
    }
    forall r: nat, u: nat ensures PageListed(m2, tab, pages, kroot, r, u) {
      assert PageListed(m1, tab, pages, kroot, r, u);
    }
  }

  lemma {:induction false} WindowRewritten(m1: Memory, m2: Memory, tab: Tables, kroot: nat, root: nat, v: nat, e: Word,
                                           n: nat)
    requires FlatUpdate(m1, m2, tab, kroot, root, v, e) && IsRoot(tab, kroot) && root != kroot && v < USER_LIMIT
    requires WalksKept(m1, m2, tab) && WindowMapped(m1, kroot, n) && SlotReady(m1, tab, kroot, HEAP_SLOT)
    ensures WindowMapped(m2, kroot, n) && SlotReady(m2, tab, kroot, HEAP_SLOT)
  {
    hide Entry, Present, WalksKept;
    forall j: nat | j < SLOT_PAGES ensures WindowPage(m2, kroot, n, j) {
      HeapVpnIs(j);
      assert WindowPage(m1, kroot, n, j);
    }
    HeapVpnIs(0);
    SelfGrows(tab, kroot);
    MayMapKept(m1, tab, m2, tab, kroot, kroot, kroot, HeapVpn(0));
  }

  datatype CopyResult = Copied | Skipped | NoTarget

  // The body of the page loop of mm_copy.
  method CopyPage(k: KernelHeap, dst: nat, src: nat, v: nat) returns (c: CopyResult)
    requires k.Valid() && IsRoot(k.m.tab, dst) && IsRoot(k.m.tab, src) && dst != src && v < USER_LIMIT
    requires dst != k.m.kroot && src != k.m.kroot
    requires Entry(k.m.mem, dst, v) == 0 || Present(Entry(k.m.mem, dst, v))
    modifies k.m`mem
    ensures k.Valid()
    ensures c == NoTarget ==> k.m.mem == old(k.m.mem) && Entry(k.m.mem, dst, v) == 0
    ensures c == Skipped ==> k.m.mem == old(k.m.mem)
    ensures c == Skipped ==> !Present(Entry(k.m.mem, src, v)) || Entry(k.m.mem, dst, v) == 0
    ensures c == Copied ==>
              var e, e0 := old(Entry(k.m.mem, src, v)), old(Entry(k.m.mem, dst, v));
              var f := FrameOf(e0);
              && Present(e) && Present(e0) && f in k.m.pages && k.m.pages[f] == PageInfo(dst, v)
              && FrameOf(e) in k.m.pages && k.m.pages[FrameOf(e)] == PageInfo(src, v)
              && f < |k.m.mem| && FrameOf(e) < |k.m.mem|
              && Entry(k.m.mem, dst, v) == MakeEntry(f, LowFlags(e))
              && k.m.mem[f] == old(k.m.mem)[FrameOf(e)]
              && CopyStep(old(k.m.mem), k.m.mem, k.m.tab, k.m.kroot, dst, v, f)
  {
    hide TableWf, PagesWf, Entry, Tiles, View, IntrusiveList.IsRing, Up, Idx, Pmm.CountFree, Pmm.BitsOf, WindowMapped,
      TableAt, FrameOf, CopyStep, SlotReady;
    ghost var m1, kroot := k.m.mem, k.m.kroot;
    var spt := k.m.GetPte(src, v);
    var dpt := k.m.GetPte(dst, v);
    if spt == 0 || dpt == 0 || !Present(k.m.mem[spt][Idx(v, 3)]) {
      return Skipped;
    }
    var srcEntry := k.m.mem[spt][Idx(v, 3)];
    var dstFrame := FrameOf(k.m.mem[dpt][Idx(v, 3)]);
    if dstFrame == 0 {
      NullEntry(k.m.mem, k.m.tab, k.m.pages, kroot, dst, v);
      return NoTarget;
    }
    NonNullEntry(k.m.mem, dst, v);
    TargetHeld(k.m.mem, k.m.tab, k.m.pages, kroot, dst, v);
    TargetHeld(k.m.mem, k.m.tab, k.m.pages, kroot, src, v);
    CopyFrame(k, dstFrame, FrameOf(srcEntry));
    ghost var m2 := k.m.mem;
    SameAt(m1, m2, k.m.tab, dst, v);
    assert WalkKept(m1, m2, dst, v, 3);
    LowFlagsPresent(srcEntry, dstFrame);
    RewriteEntry(k, dst, v, dpt, MakeEntry(dstFrame, LowFlags(srcEntry)));
    CopyStepMade(m1, m2, k.m.mem, k.m.tab, kroot, dst, v, dstFrame, MakeEntry(dstFrame, LowFlags(srcEntry)));
    return Copied;
  }

  lemma {:induction false} NullEntry(mem: Memory, tab: Tables, pages: Pages, kroot: nat, root: nat, v: nat)
    requires PagesWf(mem, tab, pages, kroot) && 0 !in pages && IsRoot(tab, root) && root != kroot && v < USER_LIMIT
    requires Entry(mem, root, v) == 0 || Present(Entry(mem, root, v))
    requires FrameOf(Entry(mem, root, v)) == 0
    ensures Entry(mem, root, v) == 0
  {
    hide Entry, FrameOf;
    if Present(Entry(mem, root, v)) {
      ListedPage(mem, tab, pages, kroot, root, v);
    }
  }

  lemma NonNullEntry(mem: Memory, root: nat, v: nat)
    requires Entry(mem, root, v) == 0 || Present(Entry(mem, root, v))
    requires FrameOf(Entry(mem, root, v)) != 0
    ensures Present(Entry(mem, root, v))
  {
    hide Entry;
  }

  lemma {:induction false} TargetHeld(mem: Memory, tab: Tables, pages: Pages, kroot: nat, root: nat, v: nat)
    requires PagesWf(mem, tab, pages, kroot) && IsRoot(tab, root) && root != kroot && v < USER_LIMIT
    requires Present(Entry(mem, root, v))
    ensures var f := FrameOf(Entry(mem, root, v)); f in pages && pages[f] == PageInfo(root, v) && f < |mem|
  {
    hide Entry, FrameOf;
    ListedPage(mem, tab, pages, kroot, root, v);
    HeldPage(mem, tab, pages, kroot, FrameOf(Entry(mem, root, v)));
  }

  lemma LowFlagsPresent(e: Word, f: nat)
    requires Present(e) && f < FRAME_LIMIT
    ensures Present(MakeEntry(f, LowFlags(e))) && FrameOf(MakeEntry(f, LowFlags(e))) == f
  {
    EntryRoundTrip(f, LowFlags(e));
  }

  lemma {:induction false} CopyStepMade(m1: Memory, m2: Memory, m3: Memory, tab: Tables, kroot: nat, r: nat, v: nat,
                                        f: nat, e: Word)
    requires f < |m1| && |m2| == |m1| && (forall g :: 0 <= g < |m1| && g != f ==> m2[g] == m1[g]) && f !in tab
    requires SameEntries(m1, m2, tab) && FlatUpdate(m2, m3, tab, kroot, r, v, e) && MemGrows(m2, m3, tab, tab, r)
    requires TablesAllow(m1, m2, tab, ALL_RIGHTS) && TablesAllow(m2, m3, tab, ALL_RIGHTS)
    requires IsRoot(tab, r) && r != kroot && v < USER_LIMIT
    ensures CopyStep(m1, m3, tab, kroot, r, v, f) && m3[f] == m2[f] && Entry(m3, r, v) == e
  {
    hide Entry, UpperRights;
    AllowTrans(m1, tab, m2, tab, m3, ALL_RIGHTS);
  }
}
