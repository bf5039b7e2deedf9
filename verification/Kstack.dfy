/** Kernel stacks: kstack_init and kstack_free (kernel/src/mm/pmm.c:348-399). */
module Kstack {
  import opened Common
  import opened Pte
  import Pmm
  import opened PageTable
  import opened Machine

  const STACK_PAGES: nat := 4          // KSTACK_SIZE

  // Page number of the k-th page of the stack window.
  function StackVpn(k: nat): nat { STACK_SLOT * SLOT_PAGES + k }

  lemma StackVpnIs(k: nat)
    requires k < SLOT_PAGES
    ensures StackVpn(k) < VPN_LIMIT && InStackWindow(StackVpn(k)) && StackVpn(k) >= USER_LIMIT
    ensures Idx(StackVpn(k), 0) == STACK_SLOT
  {
    UpValues(StackVpn(k));
  }

  // Stack pages from position k on are unmapped.
  ghost predicate UnmappedFrom(mem: Memory, kroot: nat, k: nat) {
    forall j {:trigger StackVpn(j)} :: k <= j < SLOT_PAGES ==> !Present(Entry(mem, kroot, StackVpn(j)))
  }

  // Stack page j is mapped, writable and for the kernel alone, to a frame that no page had before.
  predicate StackMapped(mem: Memory, p0: Pages, pages: Pages, kroot: nat, j: nat) {
    KernelPage(Entry(mem, kroot, StackVpn(j)))
    && FrameOf(Entry(mem, kroot, StackVpn(j))) !in p0
    && FrameOf(Entry(mem, kroot, StackVpn(j))) in pages
    && pages[FrameOf(Entry(mem, kroot, StackVpn(j)))] == PageInfo(kroot, StackVpn(j))
  }

  lemma {:induction false} SlotStays(m0: Memory, t0: Tables, m1: Memory, t1: Tables, kroot: nat, j: nat)
    requires SlotReady(m0, t0, kroot, STACK_SLOT) && IsRoot(t0, kroot) && j < SLOT_PAGES
    requires TabGrows(t0, t1, kroot) && WalksKept(m0, m1, t0)
    ensures SlotReady(m1, t1, kroot, STACK_SLOT)
  {
    StackVpnIs(j);
    assert MayMap(m0, t0, kroot, kroot, StackVpn(j));
    MayMapKept(m0, t0, m1, t1, kroot, kroot, kroot, StackVpn(j));
  }

  lemma {:induction false} StepUnmapped(m0: Memory, m1: Memory, tab: Tables, kroot: nat, k: nat, e: Word)
    requires UnmappedFrom(m0, kroot, k) && IsRoot(tab, kroot) && k < SLOT_PAGES
    requires FlatUpdate(m0, m1, tab, kroot, kroot, StackVpn(k), e) || SameEntries(m0, m1, tab)
    ensures UnmappedFrom(m1, kroot, k + 1)
  {
    hide Entry;
    forall j | k + 1 <= j < SLOT_PAGES ensures !Present(Entry(m1, kroot, StackVpn(j))) {
      StackVpnIs(j);
      StackVpnIs(k);
    }
  }

  lemma {:induction false} StepMapped(m0: Memory, m1: Memory, tab: Tables, p: Pages, p0: Pages, p1: Pages, kroot: nat,
                                      k: nat, f: nat, flags: nat, j: nat)
    requires IsRoot(tab, kroot) && k < SLOT_PAGES && j <= k && f < FRAME_LIMIT && flags < PAGE_SIZE && flags % 2 == 1
    requires RightsOf(flags) == KERNEL_RIGHTS
    requires FlatUpdate(m0, m1, tab, kroot, kroot, StackVpn(k), MakeEntry(f, flags))
    requires p1 == p[f := PageInfo(kroot, StackVpn(k))] && f !in p && f !in p0
    requires j < k ==> StackMapped(m0, p0, p, kroot, j)
    ensures StackMapped(m1, p0, p1, kroot, j)
  {
    hide Entry, FrameOf;
    StackVpnIs(j);
    StackVpnIs(k);
    EntryRoundTrip(f, flags);
    EntryRights(f, flags);
  }

  ghost predicate StackRun(mem: Memory, p0: Pages, pages: Pages, kroot: nat, lo: nat, hi: nat) {
    forall j: nat {:trigger StackMapped(mem, p0, pages, kroot, j)} :: lo <= j < hi ==>
        StackMapped(mem, p0, pages, kroot, j)
  }

  lemma EmptyRun(mem: Memory, p0: Pages, kroot: nat, lo: nat)
    ensures StackRun(mem, p0, p0, kroot, lo, lo)
  {
  }

  lemma {:induction false} RunStep(m0: Memory, m1: Memory, tab: Tables, p: Pages, p0: Pages, p1: Pages, kroot: nat,
                                   lo: nat, k: nat, f: nat, flags: nat)
    requires IsRoot(tab, kroot) && lo <= k < SLOT_PAGES && f < FRAME_LIMIT && flags < PAGE_SIZE && flags % 2 == 1
    requires RightsOf(flags) == KERNEL_RIGHTS
    requires FlatUpdate(m0, m1, tab, kroot, kroot, StackVpn(k), MakeEntry(f, flags))
    requires p1 == p[f := PageInfo(kroot, StackVpn(k))] && f !in p && f !in p0
    requires StackRun(m0, p0, p, kroot, lo, k)
    ensures StackRun(m1, p0, p1, kroot, lo, k + 1)
  {
    hide StackMapped, FlatUpdate;
    forall j: nat | lo <= j < k + 1 ensures StackMapped(m1, p0, p1, kroot, j) {
      StepMapped(m0, m1, tab, p, p0, p1, kroot, k, f, flags, j);
    }
  }

  // Stack pages below position k read as before.
  ghost predicate BelowKept(m0: Memory, m1: Memory, kroot: nat, k: nat) {
    forall j {:trigger StackVpn(j)} :: 0 <= j < k ==> Entry(m1, kroot, StackVpn(j)) == Entry(m0, kroot, StackVpn(j))
  }

  lemma BelowRefl(m: Memory, kroot: nat, k: nat)
    ensures BelowKept(m, m, kroot, k)
  {
  }

  lemma {:induction false} BelowStep(m0: Memory, m1: Memory, m2: Memory, tab: Tables, kroot: nat, k: nat, v: nat,
                                     e: Word)
    requires BelowKept(m0, m1, kroot, k) && IsRoot(tab, kroot) && k <= v < SLOT_PAGES
    requires FlatUpdate(m1, m2, tab, kroot, kroot, StackVpn(v), e) || SameEntries(m1, m2, tab)
    ensures BelowKept(m0, m2, kroot, k)
  {
    hide Entry;
    forall j | 0 <= j < k ensures Entry(m2, kroot, StackVpn(j)) == Entry(m0, kroot, StackVpn(j)) {
      StackVpnIs(j);
      StackVpnIs(v);
    }
  }

  lemma KernelFlags()
    ensures RightsOf(PTE_PRESENT + PTE_RW) == KERNEL_RIGHTS
  {
  }

  class KernelStacks {
    const m: Machine
    var next: nat  // (kstack_ptr - KERNEL_STACK_BASE) / PAGE_SIZE

    constructor (machine: Machine)
      requires machine.Valid() && UnmappedFrom(machine.mem, machine.kroot, 0)
      requires SlotReady(machine.mem, machine.tab, machine.kroot, STACK_SLOT)
      ensures m == machine && next == 0 && Valid()
    {
      m := machine;
      next := 0;
    }

    ghost predicate Valid()
      reads this, m, m.pmm, m.pmm.bitmap
    {
      && m.Valid() && next <= SLOT_PAGES
      && SlotReady(m.mem, m.tab, m.kroot, STACK_SLOT)
      && UnmappedFrom(m.mem, m.kroot, next)
    }

    // kstack_init(n * PAGE_SIZE): one guard page, then n stack pages. The result is the first
    // stack page; None stands for NULL, when a page frame was missing. The pages built until then,
    // `built` of them, stay as they are: nobody will ever give them back.
    method KstackInit(n: nat) returns (r: Option<nat>, ghost built: nat)
      requires Valid() && next + 1 + n <= SLOT_PAGES
      modifies this, m`mem, m`tab, m`stray, m`failures, m`pages, m.pmm, m.pmm.bitmap
      ensures Valid() && next == old(next) + 1 + n && old(m.stray) <= m.stray
      ensures KernelGrowth(old(m.mem), old(m.tab), old(m.pages), m.mem, m.tab, m.pages, m.kroot, STACK_SLOT)
      // the guard page stays unmapped
      ensures !Present(Entry(m.mem, m.kroot, StackVpn(old(next))))
      ensures r.Some? ==> r.value == old(next) + 1 && built == n
      ensures r.None? ==> built < n && m.pmm.freePages == 0
      // unless a table was missing, every page built has a new frame; the pages behind are unmapped
      ensures m.stray == old(m.stray) ==>
                StackRun(m.mem, old(m.pages), m.pages, m.kroot, old(next) + 1, old(next) + 1 + built)
      ensures UnmappedFrom(m.mem, m.kroot, old(next) + 1 + built)
      ensures BelowKept(old(m.mem), m.mem, m.kroot, old(next) + 1)
      ensures Losses(old(m.stray), old(m.failures), m.stray, m.failures)
      ensures old(m.pmm.freePages) >= 4 * n ==>
                r.Some? && m.stray == old(m.stray) && m.pmm.freePages + 4 * n >= old(m.pmm.freePages)
      ensures old(m.pmm.freePages) == 0 && n > 0 ==> r.None?
      ensures LostLast(old(m.failures), old(m.pmm.freePages), m.failures, m.pmm.freePages, true)
      ensures m.pmm.freePages <= old(m.pmm.freePages)
    {
      hide TableWf, PagesWf, Entry, TableAt, Missing, FlatUpdate, SameEntries, WalksKept, MemGrows, TabGrows,
        KernelGrowth, Up, Idx, Pmm.CountFree, Pmm.BitsOf, UnmappedFrom, StackMapped, FrameOf, SlotReady, Losses,
        BelowKept, StackRun, TablesAllow, UpperRights, RightsOf, Present;
      KernelFlags();
      ghost var m0, t0, p0, kroot, guard := m.mem, m.tab, m.pages, m.kroot, next;
      ghost var s0, n0 := m.stray, m.failures;
      LossesRefl(s0, n0);
      BelowRefl(m0, kroot, guard + 1);
      m.KernelIsRoot();
      next := next + 1;
      var bottom := next;
      next := bottom + n;
      GrowthRefl(m0, t0, p0, kroot, STACK_SLOT);
      Narrow(m0, kroot, guard, bottom);
      StackUnmappedAt(m0, kroot, guard);
      EmptyRun(m0, p0, kroot, bottom);
      var v := bottom;
      while v < bottom + n
        invariant bottom <= v <= bottom + n && m.Valid() && next == bottom + n && old(m.stray) <= m.stray
        invariant SlotReady(m.mem, m.tab, kroot, STACK_SLOT) && UnmappedFrom(m.mem, kroot, v)
        invariant KernelGrowth(m0, t0, p0, m.mem, m.tab, m.pages, kroot, STACK_SLOT)
        invariant !Present(Entry(m.mem, kroot, StackVpn(guard)))
        invariant old(m.pmm.freePages) == 0 ==> m.pmm.freePages == 0 && v == bottom
        invariant m.pmm.freePages <= old(m.pmm.freePages)
        invariant LostLast(n0, old(m.pmm.freePages), m.failures, m.pmm.freePages, true)
        invariant m.stray == old(m.stray) ==> StackRun(m.mem, p0, m.pages, kroot, bottom, v)
        invariant Losses(s0, n0, m.stray, m.failures) && BelowKept(m0, m.mem, kroot, guard + 1)
        invariant old(m.pmm.freePages) >= 4 * n ==>
          m.stray == old(m.stray) && m.pmm.freePages + 4 * (v - bottom) >= old(m.pmm.freePages)
      {
        ghost var m1, t1, p1, s1, n1 := m.mem, m.tab, m.pages, m.stray, m.failures;
        m.KernelIsRoot();
        StackVpnIs(v);
        StackVpnIs(guard);
        AtMostThree(m1, kroot, StackVpn(v));
        StackUnmappedAt(m1, kroot, v);
        CanMap(m1, t1, kroot, v);
        var f, mapped := m.MapNewPage(m.kroot, StackVpn(v), PTE_PRESENT + PTE_RW);
        LossesStep(s0, n0, s1, n1, m.stray, m.failures, f, f != 0 && !mapped);
        BelowStep(m0, m1, m.mem, t1, kroot, guard + 1, v, MakeEntry(f, PTE_PRESENT + PTE_RW));
        if f == 0 {
          Narrow(m.mem, kroot, v, bottom + n);
          return None, v - bottom;
        }
        AfterPage(m0, t0, p0, m1, t1, p1, m.mem, m.tab, m.pages, kroot, guard, v, f, mapped);
        if m.stray == old(m.stray) {
          NewFrame(m0, t0, p0, m1, t1, p1, kroot, f);
          RunStep(m1, m.mem, t1, p1, p0, m.pages, kroot, bottom, v, f, PTE_PRESENT + PTE_RW);
        }
        v := v + 1;
      }
      return Some(bottom), n;
    }

    // kstack_free of the four pages from stack page `base` on.
    method KstackFree(base: nat)
      requires Valid() && base + STACK_PAGES <= next
      modifies m`mem, m`stray, m`pages, m.pmm, m.pmm.bitmap
      ensures Valid() && m.stray == old(m.stray)
      ensures old(m.pmm.freePages) <= m.pmm.freePages <= old(m.pmm.freePages) + STACK_PAGES
      // the pages of the stack are given back, and no others
      ensures m.pages == WithoutStack(old(m.pages), m.kroot, base, base + STACK_PAGES)
      ensures forall j {:trigger StackVpn(j)} :: base <= j < base + STACK_PAGES ==>
                !Present(Entry(m.mem, m.kroot, StackVpn(j)))
      // no other translation and no page contents change
      ensures StackShrunk(old(m.mem), m.mem, m.tab, m.kroot, base, base + STACK_PAGES)
    {
      hide TableWf, PagesWf, Entry, TableAt, FlatUpdate, WalksKept, MemGrows, Up, Idx, Pmm.CountFree, Pmm.BitsOf,
        UnmappedFrom, FrameOf, SlotReady, Present, StackShrunk, TablesAllow;
      ghost var m0, p0 := m.mem, m.pages;
      NothingShrunk(m0, m.tab, m.kroot, base);
      NothingRemoved(p0, m.kroot, base);
      var v := base;
      while v < base + STACK_PAGES
        invariant base <= v <= base + STACK_PAGES && Valid() && m.stray == old(m.stray)
        invariant old(m.pmm.freePages) <= m.pmm.freePages <= old(m.pmm.freePages) + v - base
        invariant m.pages == WithoutStack(p0, m.kroot, base, v)
        invariant forall j {:trigger StackVpn(j)} :: base <= j < v ==> !Present(Entry(m.mem, m.kroot, StackVpn(j)))
        invariant StackShrunk(m0, m.mem, m.tab, m.kroot, base, v)
      {
        ghost var m1, p1 := m.mem, m.pages;
        m.KernelIsRoot();
        StackVpnIs(v);
        CanMap(m1, m.tab, m.kroot, v);
        m.UnmapPage(m.kroot, StackVpn(v));
        OnePageRemoved(m1, m.mem, m.tab, p0, p1, m.pages, m.kroot, base, v);
        SelfStays(m1, m.mem, m.tab, m.kroot);
        SlotStays(m1, m.tab, m.mem, m.tab, m.kroot, v);
        EntriesAfterRemoval(m1, m.mem, m.tab, m.kroot, base, v, next);
        ShrunkByPage(m0, m1, m.mem, m.tab, m.kroot, base, v);
        v := v + 1;
      }
    }
  }

  // Some of the stack pages lo..hi have lost their entries; every other translation, in every
  // space, every page's contents and all rights above the leaves are as before.
  predicate EntryShrunk(m0: Memory, m1: Memory, r: nat, v: nat, lo: nat, hi: nat) {
    Entry(m1, r, v) == Entry(m0, r, v) || (StackVpn(lo) <= v < StackVpn(hi) && Entry(m1, r, v) == 0)
  }

  ghost predicate StackShrunk(m0: Memory, m1: Memory, tab: Tables, kroot: nat, lo: nat, hi: nat) {
    && MemGrows(m0, m1, tab, tab, kroot) && WalksKept(m0, m1, tab) && TablesAllow(m0, m1, tab, ALL_RIGHTS)
    && forall r, v: nat {:trigger EntryShrunk(m0, m1, r, v, lo, hi)} ::
         IsRoot(tab, r) && v < VPN_LIMIT ==> EntryShrunk(m0, m1, r, v, lo, hi)
  }

  lemma {:induction false} NothingShrunk(m: Memory, tab: Tables, kroot: nat, lo: nat)
    ensures StackShrunk(m, m, tab, kroot, lo, lo)
  {
    hide UpperRights;
  }

  lemma {:induction false} ShrunkByPage(m0: Memory, m1: Memory, m2: Memory, tab: Tables, kroot: nat, lo: nat, v: nat)
    requires StackShrunk(m0, m1, tab, kroot, lo, v) && lo <= v < SLOT_PAGES && IsRoot(tab, kroot)
    requires MemGrows(m1, m2, tab, tab, Home(kroot, kroot, StackVpn(v))) && WalksKept(m1, m2, tab)
    requires TablesAllow(m1, m2, tab, ALL_RIGHTS)
    requires if Present(Entry(m1, kroot, StackVpn(v)))
             then FlatUpdate(m1, m2, tab, kroot, kroot, StackVpn(v), 0) else m2 == m1
    ensures StackShrunk(m0, m2, tab, kroot, lo, v + 1)
  {
    hide Entry, TableAt, UpperTo, TablesAllow;
    AllowTrans(m0, tab, m1, tab, m2, ALL_RIGHTS);
    forall r, u: nat, depth: nat | IsRoot(tab, r) && u < VPN_LIMIT ensures WalkKept(m0, m2, r, u, depth) {
      assert WalkKept(m0, m1, r, u, depth) && WalkKept(m1, m2, r, u, depth);
    }
    var next := v + 1;
    forall r, u: nat | IsRoot(tab, r) && u < VPN_LIMIT ensures EntryShrunk(m0, m2, r, u, lo, next) {
      assert EntryShrunk(m0, m1, r, u, lo, v);
    }
  }

  // pages without those mapped at stack positions lo..hi
  function WithoutStack(pages: Pages, kroot: nat, lo: nat, hi: nat): Pages {
    map f | f in pages && !(pages[f].root == kroot && StackVpn(lo) <= pages[f].vpn < StackVpn(hi)) :: pages[f]
  }

  lemma {:induction false} NothingRemoved(pages: Pages, kroot: nat, lo: nat)
    ensures WithoutStack(pages, kroot, lo, lo) == pages
  {
  }

  lemma {:induction false} SelfStays(m0: Memory, m1: Memory, tab: Tables, kroot: nat)
    ensures TabGrows(tab, tab, kroot)
  {
  }

  lemma {:induction false} OnePageRemoved(m0: Memory, m1: Memory, tab: Tables, p0: Pages, p1: Pages, p2: Pages,
                                          kroot: nat, lo: nat, v: nat)
    requires PagesWf(m0, tab, p1, kroot) && p1 == WithoutStack(p0, kroot, lo, v) && lo <= v
    requires if Present(Entry(m0, kroot, StackVpn(v)))
             then var f := FrameOf(Entry(m0, kroot, StackVpn(v)));
                  f in p1 && p1[f] == PageInfo(kroot, StackVpn(v)) && p2 == p1 - {f}
             else p2 == p1
    ensures p2 == WithoutStack(p0, kroot, lo, v + 1)
  {
    hide Entry, FrameOf;
    forall g | g in p1 && p1[g] == PageInfo(kroot, StackVpn(v))
      ensures Present(Entry(m0, kroot, StackVpn(v))) && g == FrameOf(Entry(m0, kroot, StackVpn(v)))
    {
      HeldPage(m0, tab, p1, kroot, g);
    }
    forall g | g in p1 && p1[g].root == kroot
        && StackVpn(v) <= p1[g].vpn < StackVpn(v + 1) ensures p1[g] == PageInfo(kroot, StackVpn(v)) {
    }
  }

  lemma {:induction false} EntriesAfterRemoval(m0: Memory, m1: Memory, tab: Tables, kroot: nat, lo: nat, v: nat, k: nat)
    requires IsRoot(tab, kroot) && lo <= v < k <= SLOT_PAGES && UnmappedFrom(m0, kroot, k)
    requires forall j {:trigger StackVpn(j)} :: lo <= j < v ==> !Present(Entry(m0, kroot, StackVpn(j)))
    requires if Present(Entry(m0, kroot, StackVpn(v)))
             then FlatUpdate(m0, m1, tab, kroot, kroot, StackVpn(v), 0) else m1 == m0
    ensures UnmappedFrom(m1, kroot, k)
    ensures forall j {:trigger StackVpn(j)} :: lo <= j < v + 1 ==> !Present(Entry(m1, kroot, StackVpn(j)))
  {
    hide Entry;
    StackVpnIs(v);
    forall j | lo <= j < v + 1 ensures !Present(Entry(m1, kroot, StackVpn(j))) {
      StackVpnIs(j);
    }
    forall j | k <= j < SLOT_PAGES ensures !Present(Entry(m1, kroot, StackVpn(j))) {
      StackVpnIs(j);
    }
  }

  lemma {:induction false} NewFrame(m0: Memory, t0: Tables, p0: Pages, m1: Memory, t1: Tables, p1: Pages, kroot: nat,
                                    f: nat)
    requires KernelGrowth(m0, t0, p0, m1, t1, p1, kroot, STACK_SLOT) && f !in p1
    ensures f !in p0
  {
  }

  lemma Narrow(mem: Memory, kroot: nat, k: nat, l: nat)
    requires UnmappedFrom(mem, kroot, k) && k <= l
    ensures UnmappedFrom(mem, kroot, l)
  {
  }

  lemma StackUnmappedAt(mem: Memory, kroot: nat, k: nat)
    requires UnmappedFrom(mem, kroot, k) && k < SLOT_PAGES
    ensures !Present(Entry(mem, kroot, StackVpn(k)))
  {
  }

  lemma {:induction false} CanMap(mem: Memory, tab: Tables, kroot: nat, k: nat)
    requires SlotReady(mem, tab, kroot, STACK_SLOT) && IsRoot(tab, kroot) && k < SLOT_PAGES
    ensures MayMap(mem, tab, kroot, kroot, StackVpn(k)) && OwnsPage(kroot, kroot, StackVpn(k))
  {
    StackVpnIs(k);
  }

  // What one round of the loop leaves.
  lemma {:induction false} AfterPage(m0: Memory, t0: Tables, p0: Pages, m1: Memory, t1: Tables, p1: Pages, m2: Memory,
                                     t2: Tables, p2: Pages, kroot: nat, guard: nat, v: nat, f: nat, mapped: bool)
    requires KernelGrowth(m0, t0, p0, m1, t1, p1, kroot, STACK_SLOT) && TableWf(m1, t1, kroot) && IsRoot(t1, kroot)
    requires SlotReady(m1, t1, kroot, STACK_SLOT) && UnmappedFrom(m1, kroot, v) && guard < v < SLOT_PAGES
    requires !Present(Entry(m1, kroot, StackVpn(guard))) && f !in p1 && f < FRAME_LIMIT
    requires TabGrows(t1, t2, kroot) && MemGrows(m1, m2, t1, t2, kroot) && WalksKept(m1, m2, t1)
    requires mapped ==> p2 == p1[f := PageInfo(kroot, StackVpn(v))]
                        && FlatUpdate(m1, m2, t1, kroot, kroot, StackVpn(v), MakeEntry(f, PTE_PRESENT + PTE_RW))
    requires !mapped ==> p2 == p1 && SameEntries(m1, m2, t1)
    ensures KernelGrowth(m0, t0, p0, m2, t2, p2, kroot, STACK_SLOT)
    ensures SlotReady(m2, t2, kroot, STACK_SLOT) && UnmappedFrom(m2, kroot, v + 1)
    ensures !Present(Entry(m2, kroot, StackVpn(guard)))
  {
    hide Entry, TableAt, TableWf, KernelGrowth, WalksKept, MemGrows, TabGrows, UnmappedFrom, SlotReady;
    StackVpnIs(v);
    StackVpnIs(guard);
    StackUnmappedAt(m1, kroot, v);
    SlotStays(m1, t1, m2, t2, kroot, v);
    if mapped {
      GrowthByPage(m1, t1, p1, m2, t2, kroot, StackVpn(v), f, MakeEntry(f, PTE_PRESENT + PTE_RW), STACK_SLOT);
      StepUnmapped(m1, m2, t1, kroot, v, MakeEntry(f, PTE_PRESENT + PTE_RW));
    } else {
      GrowthBySame(m1, t1, p1, m2, t2, kroot, STACK_SLOT);
      StepUnmapped(m1, m2, t1, kroot, v, 0);
    }
    GrowthTrans(m0, t0, p0, m1, t1, p1, m2, t2, p2, kroot, STACK_SLOT);
  }
}
